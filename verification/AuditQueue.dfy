/**
  The audit log's in-memory queue with batched, retried inserts and a draining shutdown
  (apps/api/src/audit/audit.service.ts). Entries are numbered in the order they are pushed.
 */
module AuditQueue {
  import opened Options

  const BATCH_SIZE := 50
  const MAX_QUEUE := 10_000
  const MAX_RETRIES := 2

  datatype Entry = Entry(id: nat, retries: nat)

  /**
    Where the flush stands: no flush promise; an insert awaited; a batch settled, the loop
    condition not yet looked at; or the loop over, the promise not yet cleared.
   */
  datatype Phase = Idle | Inflight(batch: seq<Entry>) | Between | Settling

  /** The queue and the flush, and as histories the database log, the dropped entries and the tries of each. */
  datatype State = State(
    queue: seq<Entry>, phase: Phase, pushed: nat, log: seq<nat>, dropped: seq<nat>, tries: multiset<nat>)

  const INIT := State([], Idle, 0, [], [], multiset{})

  function Ids(es: seq<Entry>): seq<nat> { seq(|es|, i requires 0 <= i < |es| => es[i].id) }

  // ---- What each call does ----

  function StartBatch(s: State): State {
    if s.queue == [] then s.(phase := Between)
    else
      var n := if |s.queue| < BATCH_SIZE then |s.queue| else BATCH_SIZE;
      s.(phase := Inflight(s.queue[..n]), queue := s.queue[n..], tries := s.tries + multiset(Ids(s.queue[..n])))
  }

  function Flushed(s: State): State { if s.phase.Idle? then StartBatch(s) else s }

  /** Drops the oldest queued entry. */
  function Evicted(s: State): State
    requires s.queue != []
  {
    s.(queue := s.queue[1..], dropped := s.dropped + [s.queue[0].id])
  }

  function Appended(s: State): State { s.(queue := s.queue + [Entry(s.pushed, 0)], pushed := s.pushed + 1) }

  function Queued(s: State): State { Appended(if |s.queue| >= MAX_QUEUE then Evicted(s) else s) }

  function Pushed(s: State): State {
    var t := Queued(s);
    if |t.queue| >= BATCH_SIZE then Flushed(t) else t
  }

  /** `Math.max(0, ...retryCounts)` */
  function MostRetries(es: seq<Entry>): (m: nat)
    ensures forall i | 0 <= i < |es| :: es[i].retries <= m
    ensures m == 0 || exists i | 0 <= i < |es| :: es[i].retries == m
  {
    if es == [] then 0
    else
      var m := MostRetries(es[..|es| - 1]);
      if es[|es| - 1].retries > m then es[|es| - 1].retries else m
  }

  function Retried(es: seq<Entry>, r: nat): seq<Entry> {
    seq(|es|, i requires 0 <= i < |es| => es[i].(retries := r))
  }

  /** The awaited insert succeeds, or fails without writing anything. */
  function Settled(s: State, ok: bool): State
    requires s.phase.Inflight?
  {
    var batch := s.phase.batch;
    var r := MostRetries(batch) + 1;
    var t := s.(phase := Between);
    if ok then t.(log := s.log + Ids(batch))
    else if r > MAX_RETRIES then t.(dropped := s.dropped + Ids(batch))
    else t.(queue := Retried(batch, r) + s.queue)
  }

  function Looped(s: State): State {
    if |s.queue| >= BATCH_SIZE then StartBatch(s) else s.(phase := Settling)
  }

  // ---- Runs ----

  datatype Step = PushStep | TimerStep | SettleStep(ok: bool) | LoopStep | ClearStep

  function Apply(s: State, step: Step): Option<State> {
    match step
    case PushStep => Some(Pushed(s))
    case TimerStep => Some(Flushed(s))
    case SettleStep(ok) => if s.phase.Inflight? then Some(Settled(s, ok)) else None
    case LoopStep => if s.phase.Between? then Some(Looped(s)) else None
    case ClearStep => if s.phase.Settling? then Some(s.(phase := Idle)) else None
  }

  function Run(s: State, steps: seq<Step>): Option<State> {
    if steps == [] then Some(s)
    else
      var before := Run(s, steps[..|steps| - 1]);
      if before.None? then None else Apply(before.value, steps[|steps| - 1])
  }

  // ---- The invariant ----

  function Flight(s: State): seq<Entry> { if s.phase.Inflight? then s.phase.batch else [] }

  /** The entries not dropped: logged, in flight, queued. */
  function Kept(s: State): seq<nat> { s.log + Ids(Flight(s)) + Ids(s.queue) }

  predicate Increasing(xs: seq<nat>) { forall i, j | 0 <= i < j < |xs| :: xs[i] < xs[j] }

  predicate Below(xs: seq<nat>, n: nat) { forall i | 0 <= i < |xs| :: xs[i] < n }

  function UpTo(n: nat): seq<nat> { if n == 0 then [] else UpTo(n - 1) + [n - 1] }

  /** Of the first n pushes, each is kept or dropped, exactly once, and the kept ones are in order. */
  predicate Conserved(kept: seq<nat>, dropped: seq<nat>, n: nat) {
    Increasing(kept) && Below(kept, n) && multiset(kept) + multiset(dropped) == multiset(UpTo(n))
  }

  predicate Small(s: State) {
    && |s.queue| + |Flight(s)| <= MAX_QUEUE + BATCH_SIZE
    && |Flight(s)| <= BATCH_SIZE
    && (s.phase.Inflight? ==> |s.queue| <= MAX_QUEUE && s.phase.batch != [])
  }

  predicate TriedAtMost(es: seq<Entry>, tries: multiset<nat>, extra: nat) {
    forall i | 0 <= i < |es| :: es[i].retries <= MAX_RETRIES && tries[es[i].id] <= es[i].retries + extra
  }

  ghost predicate Tried(queue: seq<Entry>, flight: seq<Entry>, tries: multiset<nat>, pushed: nat) {
    && TriedAtMost(queue, tries, 0)
    && TriedAtMost(flight, tries, 1)
    && (forall id: nat :: tries[id] <= MAX_RETRIES + 1)
    && (forall id: nat :: id >= pushed ==> tries[id] == 0)
  }

  ghost predicate Inv(s: State) {
    && Conserved(Kept(s), s.dropped, s.pushed)
    && Small(s)
    && Tried(s.queue, Flight(s), s.tries, s.pushed)
  }

  // ---- The kept entries ----

  lemma IdsAppend(a: seq<Entry>, b: seq<Entry>)
    ensures Ids(a + b) == Ids(a) + Ids(b)
  {
  }

  lemma {:induction false} IncreasingOnce(xs: seq<nat>, x: nat)
    requires Increasing(xs)
    ensures multiset(xs)[x] <= 1
  {
    if xs != [] {
      var front := xs[..|xs| - 1];
      assert xs == front + [xs[|xs| - 1]];
      IncreasingOnce(front, x);
    }
  }

  lemma Removed(a: seq<nat>, b: seq<nat>, c: seq<nat>, dropped: seq<nat>, n: nat)
    requires Conserved(a + b + c, dropped, n)
    ensures Conserved(a + c, dropped + b, n)
  {
    var all := a + b + c;
    forall i, j | 0 <= i < j < |a + c| ensures (a + c)[i] < (a + c)[j] {
      assert (a + c)[i] == all[if i < |a| then i else i + |b|];
      assert (a + c)[j] == all[if j < |a| then j else j + |b|];
    }
    forall i | 0 <= i < |a + c| ensures (a + c)[i] < n {
      assert (a + c)[i] == all[if i < |a| then i else i + |b|];
    }
    assert multiset(all) == multiset(a) + multiset(b) + multiset(c);
  }

  lemma KeptByStart(s: State)
    requires !s.phase.Inflight?
    ensures Kept(StartBatch(s)) == Kept(s)
  {
    if s.queue != [] {
      var t := StartBatch(s);
      assert s.queue == t.phase.batch + t.queue;
      IdsAppend(t.phase.batch, t.queue);
    }
  }

  lemma ConservedByEviction(s: State)
    requires s.queue != [] && Conserved(Kept(s), s.dropped, s.pushed)
    ensures Conserved(Kept(Evicted(s)), Evicted(s).dropped, s.pushed)
  {
    var first, rest, front := s.queue[0], s.queue[1..], s.log + Ids(Flight(s));
    assert Kept(s) == front + [first.id] + Ids(rest);
    Removed(front, [first.id], Ids(rest), s.dropped, s.pushed);
  }

  lemma ConservedOneMore(kept: seq<nat>, dropped: seq<nat>, n: nat)
    requires Conserved(kept, dropped, n)
    ensures Conserved(kept + [n], dropped, n + 1)
  {
    assert UpTo(n + 1) == UpTo(n) + [n];
  }

  lemma AppendToQueue(front: seq<nat>, queue: seq<nat>, x: nat)
    ensures front + (queue + [x]) == front + queue + [x]
  {
  }

  lemma ConservedByAppending(s: State)
    requires Conserved(Kept(s), s.dropped, s.pushed)
    ensures Conserved(Kept(Appended(s)), s.dropped, s.pushed + 1)
  {
    IdsAppend(s.queue, [Entry(s.pushed, 0)]);
    assert Ids([Entry(s.pushed, 0)]) == [s.pushed];
    AppendToQueue(s.log + Ids(Flight(s)), Ids(s.queue), s.pushed);
    ConservedOneMore(Kept(s), s.dropped, s.pushed);
  }

  lemma KeptWhenLogged(log: seq<nat>, batch: seq<nat>, queue: seq<nat>)
    ensures log + batch + [] + queue == log + batch + queue
  {
    assert log + batch + [] == log + batch;
  }

  lemma KeptWhenDropped(log: seq<nat>, queue: seq<nat>)
    ensures log + [] + queue == log + queue
  {
    assert log + [] == log;
  }

  lemma KeptWhenRequeued(log: seq<nat>, batch: seq<nat>, queue: seq<nat>)
    ensures log + [] + (batch + queue) == log + batch + queue
  {
    assert log + [] == log;
  }

  lemma IdsOfRetried(batch: seq<Entry>, r: nat, queue: seq<Entry>)
    ensures Ids(Retried(batch, r) + queue) == Ids(batch) + Ids(queue)
  {
    IdsAppend(Retried(batch, r), queue);
    assert Ids(Retried(batch, r)) == Ids(batch);
  }

  lemma KeptWhenSettled(s: State, ok: bool)
    requires s.phase.Inflight?
    ensures var (log, batch, queue) := (s.log, Ids(s.phase.batch), Ids(s.queue));
      Kept(Settled(s, ok)) ==
        if !ok && MostRetries(s.phase.batch) + 1 > MAX_RETRIES then log + queue else log + batch + queue
  {
    var r := MostRetries(s.phase.batch) + 1;
    if ok {
      KeptWhenLogged(s.log, Ids(s.phase.batch), Ids(s.queue));
    } else if r > MAX_RETRIES {
      KeptWhenDropped(s.log, Ids(s.queue));
    } else {
      IdsOfRetried(s.phase.batch, r, s.queue);
      KeptWhenRequeued(s.log, Ids(s.phase.batch), Ids(s.queue));
    }
  }

  lemma ConservedBySettling(s: State, ok: bool)
    requires s.phase.Inflight? && Conserved(Kept(s), s.dropped, s.pushed)
    ensures Conserved(Kept(Settled(s, ok)), Settled(s, ok).dropped, s.pushed)
  {
    KeptWhenSettled(s, ok);
    if !ok && MostRetries(s.phase.batch) + 1 > MAX_RETRIES {
      Removed(s.log, Ids(s.phase.batch), Ids(s.queue), s.dropped, s.pushed);
    }
  }

  // ---- The tries ----

  lemma QueuedIncrease(s: State)
    requires Conserved(Kept(s), s.dropped, s.pushed)
    ensures Increasing(Ids(s.queue)) && Below(Ids(s.queue), s.pushed)
  {
    var xs, n := Ids(s.queue), |Kept(s)| - |s.queue|;
    assert forall i | 0 <= i < |xs| :: xs[i] == Kept(s)[n + i];
  }

  lemma StartTries(batch: seq<Entry>, rest: seq<Entry>, tries: multiset<nat>, n: nat)
    requires Tried(batch + rest, [], tries, n)
    requires Increasing(Ids(batch) + Ids(rest)) && Below(Ids(batch) + Ids(rest), n)
    ensures Tried(rest, batch, tries + multiset(Ids(batch)), n)
  {
    var xs, all := Ids(batch), Ids(batch) + Ids(rest);
    var after := tries + multiset(xs);
    forall i | 0 <= i < |rest| ensures rest[i].retries <= MAX_RETRIES && after[rest[i].id] <= rest[i].retries {
      assert (batch + rest)[|batch| + i] == rest[i] && all[|batch| + i] == rest[i].id;
      assert forall j | 0 <= j < |xs| :: all[j] == xs[j];
      assert rest[i].id !in xs;
    }
    assert Increasing(xs) by { assert forall i | 0 <= i < |xs| :: xs[i] == all[i]; }
    forall i | 0 <= i < |batch| ensures batch[i].retries <= MAX_RETRIES && after[batch[i].id] <= batch[i].retries + 1 {
      assert (batch + rest)[i] == batch[i];
      IncreasingOnce(xs, batch[i].id);
    }
    forall id: nat ensures after[id] <= MAX_RETRIES + 1 && (id >= n ==> after[id] == 0) {
      if id in xs {
        var i :| 0 <= i < |xs| && xs[i] == id;
        assert batch[i].id == id && all[i] == id;
      }
    }
  }

  lemma SettledTries(s: State, ok: bool)
    requires s.phase.Inflight? && Tried(s.queue, s.phase.batch, s.tries, s.pushed)
    ensures Tried(Settled(s, ok).queue, [], s.tries, s.pushed)
  {
    var batch := s.phase.batch;
    var r := MostRetries(batch) + 1;
    if !ok && r <= MAX_RETRIES {
      var again := Retried(batch, r);
      forall i | 0 <= i < |again + s.queue|
        ensures var e := (again + s.queue)[i]; e.retries <= MAX_RETRIES && s.tries[e.id] <= e.retries
      {
        if i < |batch| {
          assert batch[i].retries < r;
        }
      }
    }
  }

  // ---- Every step keeps the invariant ----

  lemma StartKeeps(s: State)
    requires Inv(s) && !s.phase.Inflight?
    ensures Inv(StartBatch(s))
  {
    KeptByStart(s);
    if s.queue != [] {
      var t := StartBatch(s);
      QueuedIncrease(s);
      assert s.queue == t.phase.batch + t.queue;
      IdsAppend(t.phase.batch, t.queue);
      StartTries(t.phase.batch, t.queue, s.tries, s.pushed);
    }
  }

  lemma EvictionKeeps(s: State)
    requires Inv(s) && s.queue != []
    ensures Inv(Evicted(s))
  {
    ConservedByEviction(s);
  }

  lemma AppendingKeeps(s: State)
    requires Inv(s) && |s.queue| + |Flight(s)| < MAX_QUEUE + BATCH_SIZE && (s.phase.Inflight? ==> |s.queue| < MAX_QUEUE)
    ensures Inv(Appended(s))
  {
    ConservedByAppending(s);
    AppendingTries(s.queue, Flight(s), s.tries, s.pushed);
    assert Small(Appended(s));
  }

  lemma AppendingTries(queue: seq<Entry>, flight: seq<Entry>, tries: multiset<nat>, n: nat)
    requires Tried(queue, flight, tries, n)
    ensures Tried(queue + [Entry(n, 0)], flight, tries, n + 1)
  {
  }

  lemma PushKeeps(s: State)
    requires Inv(s)
    ensures Inv(Queued(s))
  {
    if |s.queue| >= MAX_QUEUE {
      EvictionKeeps(s);
      EvictionMakesRoom(s);
      AppendingKeeps(Evicted(s));
    } else {
      RoomIsLeft(s);
      AppendingKeeps(s);
    }
  }

  lemma EvictionMakesRoom(s: State)
    requires Small(s) && s.queue != []
    ensures |Evicted(s).queue| + |Flight(Evicted(s))| < MAX_QUEUE + BATCH_SIZE
    ensures Evicted(s).phase.Inflight? ==> |Evicted(s).queue| < MAX_QUEUE
  {
  }

  lemma RoomIsLeft(s: State)
    requires Small(s) && |s.queue| < MAX_QUEUE
    ensures |s.queue| + |Flight(s)| < MAX_QUEUE + BATCH_SIZE
  {
  }

  lemma SettlingKeeps(s: State, ok: bool)
    requires Inv(s) && s.phase.Inflight?
    ensures Inv(Settled(s, ok))
  {
    ConservedBySettling(s, ok);
    SettledTries(s, ok);
  }

  lemma FlushKeeps(s: State)
    requires Inv(s)
    ensures Inv(Flushed(s))
  {
    if s.phase.Idle? { StartKeeps(s); }
  }

  lemma LoopKeeps(s: State)
    requires Inv(s) && s.phase.Between?
    ensures Inv(Looped(s))
  {
    if |s.queue| >= BATCH_SIZE { StartKeeps(s); }
  }

  lemma StepKeepsInv(s: State, step: Step)
    requires Inv(s) && Apply(s, step).Some?
    ensures Inv(Apply(s, step).value)
  {
    match step
    case PushStep =>
      PushKeeps(s);
      FlushKeeps(Queued(s));
    case TimerStep => FlushKeeps(s);
    case SettleStep(ok) => SettlingKeeps(s, ok);
    case LoopStep => LoopKeeps(s);
    case ClearStep =>
  }

  lemma {:induction false} RunKeepsInv(steps: seq<Step>)
    requires Run(INIT, steps).Some?
    ensures Inv(Run(INIT, steps).value)
  {
    if steps != [] {
      RunKeepsInv(steps[..|steps| - 1]);
      StepKeepsInv(Run(INIT, steps[..|steps| - 1]).value, steps[|steps| - 1]);
    }
  }

  // ---- The theorems ----

  /** In every run the log lists pushes in the order they were made, none twice. */
  lemma LogIsInOrder(steps: seq<Step>)
    requires Run(INIT, steps).Some?
    ensures Increasing(Run(INIT, steps).value.log) && Below(Run(INIT, steps).value.log, Run(INIT, steps).value.pushed)
  {
    RunKeepsInv(steps);
    var s := Run(INIT, steps).value;
    assert forall i | 0 <= i < |s.log| :: s.log[i] == Kept(s)[i];
  }

  lemma {:induction false} UpToOnce(n: nat, id: nat)
    ensures |UpTo(n)| == n && multiset(UpTo(n))[id] == if id < n then 1 else 0
  {
    if n > 0 { UpToOnce(n - 1, id); }
  }

  /** In every run each push is in exactly one place: logged, in flight, queued or dropped. */
  lemma NothingIsLostOrDoubled(steps: seq<Step>, id: nat)
    requires Run(INIT, steps).Some?
    ensures var s := Run(INIT, steps).value;
      multiset(s.log)[id] + multiset(Ids(Flight(s)))[id] + multiset(Ids(s.queue))[id] + multiset(s.dropped)[id]
      == if id < s.pushed then 1 else 0
    ensures var s := Run(INIT, steps).value; s.pushed == |s.log| + |Flight(s)| + |s.queue| + |s.dropped|
  {
    RunKeepsInv(steps);
    var s := Run(INIT, steps).value;
    UpToOnce(s.pushed, id);
    assert |multiset(Kept(s)) + multiset(s.dropped)| == |Kept(s)| + |s.dropped|;
  }

  /** In every run each entry is tried at most three times and the queue holds at most 10,050. */
  lemma TriesAndQueueAreBounded(steps: seq<Step>, id: nat)
    requires Run(INIT, steps).Some?
    ensures var s := Run(INIT, steps).value; s.tries[id] <= 3 && |s.queue| <= 10_050
  {
    RunKeepsInv(steps);
  }

  function Pushes(n: nat): seq<Step> { seq(n, _ => PushStep) }

  predicate Untried(es: seq<Entry>) { forall i | 0 <= i < |es| :: es[i].retries == 0 }

  predicate Collecting(s: State, n: nat) { s.phase.Idle? && |s.queue| == n && Untried(s.queue) }

  predicate Awaiting(s: State, n: nat) {
    s.phase.Inflight? && |s.phase.batch| == BATCH_SIZE && Untried(s.phase.batch) && |s.queue| == n - BATCH_SIZE
  }

  /** Pushes alone: the fiftieth starts a flush, and while it is awaited the queue fills up. */
  predicate Filled(s: State, n: nat) { if n < BATCH_SIZE then Collecting(s, n) else Awaiting(s, n) }

  lemma {:induction false} Filling(n: nat)
    requires n <= MAX_QUEUE + BATCH_SIZE
    ensures Run(INIT, Pushes(n)).Some? && Filled(Run(INIT, Pushes(n)).value, n)
  {
    if n > 0 {
      Filling(n - 1);
      LastPush(n);
      OneMorePush(Run(INIT, Pushes(n - 1)).value, n - 1);
    }
  }

  lemma LastPush(n: nat)
    requires n > 0 && Run(INIT, Pushes(n - 1)).Some?
    ensures Run(INIT, Pushes(n)) == Some(Pushed(Run(INIT, Pushes(n - 1)).value))
  {
    assert Pushes(n)[..n - 1] == Pushes(n - 1);
  }

  lemma OneMorePush(s: State, n: nat)
    requires Filled(s, n) && n < MAX_QUEUE + BATCH_SIZE
    ensures Filled(Pushed(s), n + 1)
  {
  }

  /** The bound is reached, although pushes alone stop at 10,000: by an insert failing over a full queue. */
  lemma BoundIsReached()
    ensures exists steps :: Run(INIT, steps).Some? && |Run(INIT, steps).value.queue| == 10_050
  {
    var n := MAX_QUEUE + BATCH_SIZE;
    var steps := Pushes(n) + [SettleStep(false)];
    Filling(n);
    assert steps[..|steps| - 1] == Pushes(n);
    FailureRefills(Run(INIT, Pushes(n)).value);
    assert Run(INIT, steps).Some?;
  }

  lemma FailureRefills(s: State)
    requires Filled(s, MAX_QUEUE + BATCH_SIZE)
    ensures |Settled(s, false).queue| == MAX_QUEUE + BATCH_SIZE
  {
    assert MostRetries(s.phase.batch) == 0;
  }

  // ---- The third try ----

  function Fresh(n: nat): seq<Entry> { seq(n, i requires 0 <= i < n => Entry(i, 0)) }

  /** The state in which the first n < 50 pushes wait. */
  function Waiting(n: nat): State { State(Fresh(n), Idle, n, [], [], multiset{}) }

  predicate HaveRetries(es: seq<Entry>, r: nat) { forall i | 0 <= i < |es| :: es[i].retries == r }

  predicate InFlight(s: State, batch: seq<Entry>) { s.phase == Inflight(batch) && s.queue == [] && |batch| == 50 }

  lemma {:induction false} FirstPushes(n: nat)
    requires n < 50
    ensures Run(INIT, Pushes(n)) == Some(Waiting(n))
  {
    if n > 0 {
      FirstPushes(n - 1);
      LastPush(n);
      assert Fresh(n - 1) + [Entry(n - 1, 0)] == Fresh(n);
    } else {
      assert Fresh(0) == [];
    }
  }

  lemma FiftiethPush()
    ensures Run(INIT, Pushes(50)).Some?
    ensures var s := Run(INIT, Pushes(50)).value;
      InFlight(s, Fresh(50)) && s.tries == multiset(Ids(Fresh(50))) && s.dropped == [] && s.log == []
  {
    FirstPushes(49);
    LastPush(50);
    assert Fresh(49) + [Entry(49, 0)] == Fresh(50);
    assert Fresh(50)[..50] == Fresh(50) && Fresh(50)[50..] == [];
  }

  lemma MostOf(batch: seq<Entry>, r: nat)
    requires batch != [] && HaveRetries(batch, r)
    ensures MostRetries(batch) == r
  {
    assert batch[0].retries == r;
  }

  lemma FailsBatch(steps: seq<Step>, s: State, batch: seq<Entry>, r: nat) returns (t: State)
    requires Run(INIT, steps) == Some(s) && InFlight(s, batch) && MostRetries(batch) == r && r < 2
    ensures Run(INIT, steps + [SettleStep(false)]) == Some(t)
    ensures t == s.(phase := Between, queue := Retried(batch, r + 1))
  {
    assert Retried(batch, r + 1) + [] == Retried(batch, r + 1);
    t := s.(phase := Between, queue := Retried(batch, r + 1));
    OneMoreStep(steps, s, SettleStep(false), t);
  }

  lemma StartsAgain(steps: seq<Step>, s: State, again: seq<Entry>) returns (t: State)
    requires Run(INIT, steps) == Some(s) && s.phase.Between? && s.queue == again && |again| == 50
    ensures Run(INIT, steps + [LoopStep]) == Some(t)
    ensures InFlight(t, again) && t.tries == s.tries + multiset(Ids(again)) && t.dropped == s.dropped && t.log == s.log
  {
    t := Looped(s);
    OneMoreStep(steps, s, LoopStep, t);
    assert again[..50] == again && again[50..] == [];
  }

  /** A whole batch failed and tried again. */
  lemma FailAndRetry(steps: seq<Step>, s: State, batch: seq<Entry>, r: nat)
    returns (longer: seq<Step>, t: State, again: seq<Entry>)
    requires Run(INIT, steps) == Some(s) && InFlight(s, batch) && HaveRetries(batch, r) && r < 2
    ensures Run(INIT, longer) == Some(t) && InFlight(t, again) && HaveRetries(again, r + 1) && Ids(again) == Ids(batch)
    ensures t.tries == s.tries + multiset(Ids(batch)) && t.dropped == s.dropped && t.log == s.log
  {
    MostOf(batch, r);
    var settled := FailsBatch(steps, s, batch, r);
    again := Retried(batch, r + 1);
    assert Ids(again) == Ids(batch);
    t := StartsAgain(steps + [SettleStep(false)], settled, again);
    longer := steps + [SettleStep(false)] + [LoopStep];
  }

  lemma OneMoreStep(steps: seq<Step>, s: State, step: Step, t: State)
    requires Run(INIT, steps) == Some(s) && Apply(s, step) == Some(t)
    ensures Run(INIT, steps + [step]) == Some(t)
  {
    assert (steps + [step])[..|steps|] == steps;
  }

  lemma {:induction false} FreshOnce(n: nat, id: nat)
    ensures multiset(Ids(Fresh(n)))[id] == if id < n then 1 else 0
  {
    if n > 0 {
      FreshOnce(n - 1, id);
      assert Ids(Fresh(n)) == Ids(Fresh(n - 1)) + [n - 1];
    }
  }

  lemma FailForGood(steps: seq<Step>, s: State, batch: seq<Entry>) returns (longer: seq<Step>, t: State)
    requires Run(INIT, steps) == Some(s) && InFlight(s, batch) && HaveRetries(batch, 2)
    ensures Run(INIT, longer) == Some(t)
    ensures t.tries == s.tries && t.dropped == s.dropped + Ids(batch) && t.log == s.log
  {
    t := Settled(s, false);
    OneMoreStep(steps, s, SettleStep(false), t);
    longer := steps + [SettleStep(false)];
  }

  /** Three tries are made: fifty pushes whose insert fails each time are dropped after the third, not before. */
  lemma ThreeTriesAreMade() returns (steps: seq<Step>, s: State)
    ensures Run(INIT, steps) == Some(s) && s.log == [] && |s.dropped| == 50
    ensures forall id: nat | id < 50 :: id in s.dropped && s.tries[id] == 3
  {
    FiftiethPush();
    var again;
    steps, s, again := FailAndRetry(Pushes(50), Run(INIT, Pushes(50)).value, Fresh(50), 0);
    steps, s, again := FailAndRetry(steps, s, again, 1);
    steps, s := FailForGood(steps, s, again);
    ThriceEach(s.tries, s.dropped);
  }

  lemma ThriceEach(tries: multiset<nat>, dropped: seq<nat>)
    requires var ids := Ids(Fresh(50)); tries == multiset(ids) + multiset(ids) + multiset(ids) && dropped == [] + ids
    ensures |dropped| == 50 && forall id: nat | id < 50 :: id in dropped && tries[id] == 3
  {
    forall id: nat | id < 50 ensures id in dropped && tries[id] == 3 {
      FreshOnce(50, id);
      assert Ids(Fresh(50))[id] == id;
    }
  }

  // ---- The effect of each step ----

  /** A push drops the oldest entry of a full queue, appends its own, and hands a full batch to an idle flush. */
  lemma PushIs(s: State)
    ensures Apply(s, PushStep).Some?
    ensures var t := Apply(s, PushStep).value;
      var full := |s.queue| >= 10_000;
      var queue := (if full then s.queue[1..] else s.queue) + [Entry(s.pushed, 0)];
      && t.pushed == s.pushed + 1 && t.log == s.log
      && t.dropped == (if full then s.dropped + [s.queue[0].id] else s.dropped)
      && if s.phase.Idle? && |queue| >= 50
         then t.phase == Inflight(queue[..50]) && t.queue == queue[50..]
         else t.phase == s.phase && t.queue == queue
  {
  }

  /** The timer and the loop take up to fifty entries from the front, the loop only full batches. */
  lemma BatchesAre(s: State)
    ensures Apply(s, TimerStep) == Some(
      if !s.phase.Idle? then s
      else if s.queue == [] then s.(phase := Between)
      else
        var n := if |s.queue| < 50 then |s.queue| else 50;
        s.(phase := Inflight(s.queue[..n]), queue := s.queue[n..], tries := s.tries + multiset(Ids(s.queue[..n]))))
    ensures s.phase.Between? ==> Apply(s, LoopStep) == Some(
      if |s.queue| < 50 then s.(phase := Settling)
      else s.(phase := Inflight(s.queue[..50]), queue := s.queue[50..],
              tries := s.tries + multiset(Ids(s.queue[..50]))))
    ensures s.phase.Settling? ==> Apply(s, ClearStep) == Some(s.(phase := Idle))
  {
  }

  /**
    A batch that was written is logged. One that was not goes back to the front, all its entries with one
    retry more than any had, unless some entry has been retried twice: then the batch is dropped.
   */
  lemma SettlingIs(s: State, ok: bool)
    requires s.phase.Inflight?
    ensures Apply(s, SettleStep(ok)).Some?
    ensures var batch, t := s.phase.batch, Apply(s, SettleStep(ok)).value;
      var spent := exists i | 0 <= i < |batch| :: batch[i].retries >= 2;
      && t.phase.Between? && t.pushed == s.pushed && t.tries == s.tries
      && t.log == (if ok then s.log + Ids(batch) else s.log)
      && t.dropped == (if !ok && spent then s.dropped + Ids(batch) else s.dropped)
      && (ok || spent ==> t.queue == s.queue)
      && (!ok && !spent ==>
            && |t.queue| == |batch| + |s.queue| && t.queue[|batch|..] == s.queue
            && (forall i | 0 <= i < |batch| :: t.queue[i].id == batch[i].id && t.queue[i].retries <= 2)
            && (forall i, k | 0 <= i < |batch| && 0 <= k < |batch| ::
                  t.queue[i].retries == t.queue[k].retries && batch[k].retries < t.queue[i].retries)
            && (forall i | 0 <= i < |batch| ::
                  t.queue[i].retries == 1 || exists k | 0 <= k < |batch| :: batch[k].retries + 1 == t.queue[i].retries))
  {
    var batch := s.phase.batch;
    var m := MostRetries(batch);
    if m >= 2 {
      var k :| 0 <= k < |batch| && batch[k].retries == m;
    }
  }

  // ---- Shutdown ----

  /** How many more failures the entries can take. */
  function Weight(es: seq<Entry>): nat {
    if es == [] then 0
    else Weight(es[1..]) + if es[0].retries <= MAX_RETRIES then MAX_RETRIES + 1 - es[0].retries else 0
  }

  function Left(s: State): nat { Weight(s.queue) + Weight(Flight(s)) }

  lemma {:induction false} WeightAppend(a: seq<Entry>, b: seq<Entry>)
    ensures Weight(a + b) == Weight(a) + Weight(b)
  {
    if a == [] {
      assert a + b == b;
    } else {
      assert (a + b)[1..] == a[1..] + b;
      WeightAppend(a[1..], b);
    }
  }

  lemma {:induction false} RetriedIsLighter(es: seq<Entry>, r: nat)
    requires forall i | 0 <= i < |es| :: es[i].retries < r
    requires r <= MAX_RETRIES
    ensures Weight(Retried(es, r)) <= Weight(es) && (es != [] ==> Weight(Retried(es, r)) < Weight(es))
  {
    if es != [] {
      assert Retried(es, r)[1..] == Retried(es[1..], r);
      RetriedIsLighter(es[1..], r);
    }
  }

  lemma StartingWeighs(s: State)
    requires !s.phase.Inflight?
    ensures Left(StartBatch(s)) == Left(s)
  {
    if s.queue != [] {
      var t := StartBatch(s);
      assert s.queue == t.phase.batch + t.queue;
      WeightAppend(t.phase.batch, t.queue);
    }
  }

  /** Every settled batch makes the remaining work lighter. */
  lemma SettlingIsLighter(s: State, ok: bool)
    requires Inv(s) && s.phase.Inflight?
    ensures Left(Settled(s, ok)) < Left(s)
  {
    var batch := s.phase.batch;
    var r := MostRetries(batch) + 1;
    assert Weight(batch) > 0;
    if !ok && r <= MAX_RETRIES {
      RetriedIsLighter(batch, r);
      WeightAppend(Retried(batch, r), s.queue);
    }
  }

  /** One iteration of the flush loop: the insert settles, then the loop condition is looked at. */
  function Round(s: State, ok: bool): State
    requires s.phase.Inflight? || s.phase.Between?
  {
    Looped(if s.phase.Inflight? then Settled(s, ok) else s)
  }

  lemma LoopingWeighs(s: State)
    requires s.phase.Between?
    ensures Left(Looped(s)) == Left(s) && Looped(s).pushed == s.pushed
    ensures Looped(s).phase.Inflight? || Looped(s).phase.Settling?
  {
    if |s.queue| >= BATCH_SIZE {
      StartingWeighs(s);
    } else {
      assert Flight(Looped(s)) == Flight(s);
    }
  }

  lemma RoundIsLighter(s: State, ok: bool)
    requires Inv(s) && (s.phase.Inflight? || s.phase.Between?)
    ensures Inv(Round(s, ok)) && Round(s, ok).pushed == s.pushed
    ensures Round(s, ok).phase.Inflight? || Round(s, ok).phase.Settling?
    ensures Left(Round(s, ok)) <= Left(s) && (s.phase.Inflight? ==> Left(Round(s, ok)) < Left(s))
  {
    if s.phase.Inflight? {
      var t := Settled(s, ok);
      SettlingIsLighter(s, ok);
      SettlingKeeps(s, ok);
      LoopKeeps(t);
      LoopingWeighs(t);
    } else {
      LoopKeeps(s);
      LoopingWeighs(s);
    }
  }

  class AuditService {
    var queue: seq<Entry>
    var phase: Phase
    var pushed: nat
    ghost var log: seq<nat>
    ghost var dropped: seq<nat>
    ghost var tries: multiset<nat>

    ghost function Value(): State
      reads this
    {
      State(queue, phase, pushed, log, dropped, tries)
    }

    constructor ()
      ensures Value() == INIT
    {
      queue, phase, pushed, log, dropped, tries := [], Idle, 0, [], [], multiset{};
    }

    method Push()
      modifies this
      ensures Value() == old(Pushed(Value()))
    {
      if |queue| >= MAX_QUEUE {
        dropped := dropped + [queue[0].id];
        queue := queue[1..];
      }
      queue := queue + [Entry(pushed, 0)];
      pushed := pushed + 1;
      if |queue| >= BATCH_SIZE {
        Flush();
      }
    }

    /** `flush` up to its first `await`. */
    method Flush()
      modifies this
      ensures Value() == old(Flushed(Value()))
    {
      if !phase.Idle? {
        return;
      }
      StartQueuedBatch();
    }

    /** `flushQueuedBatch` up to the insert. */
    method StartQueuedBatch()
      modifies this
      ensures Value() == old(StartBatch(Value()))
    {
      if |queue| == 0 {
        phase := Between;
        return;
      }
      var n := if |queue| < BATCH_SIZE then |queue| else BATCH_SIZE;
      tries := tries + multiset(Ids(queue[..n]));
      phase := Inflight(queue[..n]);
      queue := queue[n..];
    }

    /** The rest of `flushQueuedBatch`, once the insert has settled. */
    method BatchSettled(ok: bool)
      requires phase.Inflight?
      modifies this
      ensures Value() == old(Settled(Value(), ok))
    {
      var batch := phase.batch;
      phase := Between;
      if ok {
        log := log + Ids(batch);
        return;
      }
      var retryCount := MostRetries(batch) + 1;
      if retryCount > MAX_RETRIES {
        dropped := dropped + Ids(batch);
        return;
      }
      queue := Retried(batch, retryCount) + queue;
    }

    /** One iteration of the loop of `flushQueuedBatches`; the insert goes either way. */
    method OneRound() returns (ok: bool)
      requires phase.Inflight? || phase.Between?
      modifies this
      ensures Value() == old(Round(Value(), ok))
    {
      ok := *;
      if phase.Inflight? {
        BatchSettled(ok);
      }
      if |queue| >= BATCH_SIZE {
        StartQueuedBatch();
      } else {
        phase := Settling;
      }
    }

    /** `flushQueuedBatches` from where it stands to its end. */
    method FinishFlush()
      requires Inv(Value())
      modifies this
      ensures Inv(Value()) && phase.Idle? && pushed == old(pushed)
      ensures Left(Value()) <= old(Left(Value()))
      ensures old(phase.Inflight?) ==> Left(Value()) < old(Left(Value()))
    {
      while phase.Inflight? || phase.Between?
        invariant Inv(Value()) && pushed == old(pushed)
        invariant Value() == old(Value()) || Left(Value()) < old(Left(Value()))
          || (old(phase.Between?) && Left(Value()) <= old(Left(Value())))
        decreases Left(Value()), phase.Between?
      {
        ghost var s := Value();
        var ok := OneRound();
        RoundIsLighter(s, ok);
      }
      phase := Idle;
    }

    /**
      `onModuleDestroy`, with no further pushes: whatever the inserts do, it comes to an end, and
      then every entry ever pushed is logged or dropped.
     */
    method Drain()
      requires Inv(Value())
      modifies this
      ensures Inv(Value()) && queue == [] && phase.Idle? && pushed == old(pushed)
      ensures pushed == |log| + |dropped|
    {
      FinishFlush();
      while |queue| > 0
        invariant Inv(Value()) && phase.Idle? && pushed == old(pushed)
        decreases Left(Value())
      {
        StartKeeps(Value());
        StartingWeighs(Value());
        Flush();
        FinishFlush();
      }
      UpToOnce(pushed, 0);
      assert |multiset(Kept(Value())) + multiset(dropped)| == |Kept(Value())| + |dropped|;
    }
  }
}
