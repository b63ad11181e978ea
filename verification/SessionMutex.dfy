/**
  A mutex per key built from a chain of promises (apps/api/src/agent/session-mutex.ts).
  Tickets are numbered in the order of the calls that created them.
 */
module SessionMutex {
  import opened Options

  type Key = string

  /** One call: what it waits for, whether its caller went past the wait, and its release flag. */
  datatype Ticket = Ticket(key: Key, previous: Option<nat>, entered: bool, released: bool)

  /** The map holds promises; a promise is named by the ticket that made it. `entries` is history. */
  datatype State = State(locks: map<Key, nat>, tickets: seq<Ticket>, entries: seq<nat>)

  const INIT := State(map[], [], [])

  /** The promise of ticket t is resolved once t and everything it was chained to are released. */
  predicate Settled(tickets: seq<Ticket>, t: nat)
    requires t < |tickets|
    decreases t
  {
    && tickets[t].released
    && (tickets[t].previous.Some? ==> tickets[t].previous.value < t && Settled(tickets, tickets[t].previous.value))
  }

  predicate WaitIsOver(tickets: seq<Ticket>, t: nat)
    requires t < |tickets|
  {
    tickets[t].previous.Some? ==> tickets[t].previous.value < t && Settled(tickets, tickets[t].previous.value)
  }

  function Queue(s: State, key: Key): State {
    var previous := if key in s.locks then Some(s.locks[key]) else None;
    s.(locks := s.locks[key := |s.tickets|], tickets := s.tickets + [Ticket(key, previous, false, false)])
  }

  function Take(s: State, key: Key): State {
    s.(locks := s.locks[key := |s.tickets|],
       tickets := s.tickets + [Ticket(key, None, true, false)],
       entries := s.entries + [|s.tickets|])
  }

  function Enter(s: State, t: nat): State
    requires t < |s.tickets|
  {
    s.(tickets := s.tickets[t := s.tickets[t].(entered := true)], entries := s.entries + [t])
  }

  function Free(s: State, t: nat): State
    requires t < |s.tickets|
  {
    var key := s.tickets[t].key;
    if s.tickets[t].released then s
    else
      s.(tickets := s.tickets[t := s.tickets[t].(released := true)],
         locks := if key in s.locks && s.locks[key] == t then s.locks - {key} else s.locks)
  }

  class Mutex {
    var locks: map<Key, nat>
    var tickets: seq<Ticket>
    ghost var entries: seq<nat>

    ghost function Value(): State
      reads this
    {
      State(locks, tickets, entries)
    }

    constructor ()
      ensures Value() == INIT
    {
      locks, tickets, entries := map[], [], [];
    }

    /** `acquire` up to its `await`. */
    method Acquire(key: Key) returns (t: nat)
      modifies this
      ensures t == |old(tickets)| && Value() == old(Queue(Value(), key))
      ensures tickets[..t] == old(tickets) && |tickets| == t + 1 && locks == old(locks)[key := t]
      ensures tickets[t] == Ticket(key, if key in old(locks) then Some(old(locks)[key]) else None, false, false)
    {
      var previous := None;
      if key in locks {
        previous := Some(locks[key]);
      }
      t := |tickets|;
      tickets := tickets + [Ticket(key, previous, false, false)];
      locks := locks[key := t];
    }

    /** `acquire` after its `await`. */
    method Resume(t: nat)
      requires t < |tickets| && !tickets[t].entered && WaitIsOver(tickets, t)
      modifies this
      ensures Value() == old(Enter(Value(), t))
      ensures Holds(Value(), t) == !old(tickets)[t].released && entries == old(entries) + [t] && locks == old(locks)
    {
      tickets := tickets[t := tickets[t].(entered := true)];
      entries := entries + [t];
    }

    method TryAcquire(key: Key) returns (t: Option<nat>)
      modifies this
      ensures t.None? <==> key in old(locks)
      ensures t.None? ==> Value() == old(Value())
      ensures t.Some? ==> t.value == |old(tickets)| && Value() == old(Take(Value(), key))
      ensures t.Some? ==> Holds(Value(), t.value) && tickets[t.value].key == key && locks == old(locks)[key := t.value]
    {
      if key in locks {
        return None;
      }
      t := Some(|tickets|);
      entries := entries + [|tickets|];
      tickets := tickets + [Ticket(key, None, true, false)];
      locks := locks[key := t.value];
    }

    method Release(t: nat)
      requires t < |tickets| && tickets[t].entered
      modifies this
      ensures Value() == old(Free(Value(), t))
      ensures |tickets| == |old(tickets)| && tickets[t].released && !Holds(Value(), t) && entries == old(entries)
      ensures forall u | 0 <= u < |tickets| && u != t :: tickets[u] == old(tickets)[u]
      ensures forall key :: key in locks <==>
        key in old(locks) && !(key == tickets[t].key && old(locks)[key] == t && !old(tickets)[t].released)
      ensures forall key | key in locks :: locks[key] == old(locks)[key]
    {
      if tickets[t].released {
        return;
      }
      var key := tickets[t].key;
      tickets := tickets[t := tickets[t].(released := true)];
      if key in locks && locks[key] == t {
        locks := locks - {key};
      }
    }
  }

  // ---- Runs ----

  /**
    The calls, and the moment a waiting caller gets past its wait. That moment may come any
    time after the promise it waits for is resolved; release functions may be called again.
   */
  datatype Step = AcquireStep(key: Key) | TryStep(key: Key) | EnterStep(t: nat) | ReleaseStep(t: nat)

  function Apply(s: State, step: Step): Option<State> {
    match step
    case AcquireStep(key) => Some(Queue(s, key))
    case TryStep(key) => Some(if key in s.locks then s else Take(s, key))
    case EnterStep(t) =>
      if t < |s.tickets| && !s.tickets[t].entered && WaitIsOver(s.tickets, t) then Some(Enter(s, t)) else None
    case ReleaseStep(t) =>
      if t < |s.tickets| && s.tickets[t].entered then Some(Free(s, t)) else None
  }

  function Run(s: State, steps: seq<Step>): Option<State> {
    if steps == [] then Some(s)
    else
      var before := Run(s, steps[..|steps| - 1]);
      if before.None? then None else Apply(before.value, steps[|steps| - 1])
  }

  // ---- The invariant ----

  /** Every earlier ticket of t's key is released. */
  predicate EarlierReleased(tickets: seq<Ticket>, t: nat)
    requires t < |tickets|
  {
    forall u | 0 <= u < t && tickets[u].key == tickets[t].key :: tickets[u].released
  }

  /** t is the newest ticket of the key. */
  predicate Newest(tickets: seq<Ticket>, key: Key, t: nat) {
    t < |tickets| && tickets[t].key == key && forall u | t < u < |tickets| :: tickets[u].key != key
  }

  predicate Chained(tickets: seq<Ticket>, t: nat)
    requires t < |tickets|
  {
    var p := tickets[t].previous;
    && (p.None? ==> EarlierReleased(tickets, t))
    && (p.Some? ==> p.value < t && Newest(tickets[..t], tickets[t].key, p.value))
    && (tickets[t].entered ==> EarlierReleased(tickets, t))
    && (tickets[t].released ==> tickets[t].entered)
  }

  predicate AllChained(tickets: seq<Ticket>) { forall t | 0 <= t < |tickets| :: Chained(tickets, t) }

  /** The map names, for each key with an unreleased ticket and no other, its newest ticket. */
  predicate LocksExact(s: State) {
    && (forall key | key in s.locks :: Newest(s.tickets, key, s.locks[key]) && !s.tickets[s.locks[key]].released)
    && (forall t | 0 <= t < |s.tickets| && !s.tickets[t].released :: s.tickets[t].key in s.locks)
  }

  /** Tickets of one key got past their wait in the order they were created, each once. */
  predicate InOrder(s: State) {
    && (forall i | 0 <= i < |s.entries| :: s.entries[i] < |s.tickets| && s.tickets[s.entries[i]].entered)
    && (forall t: nat | t < |s.tickets| && s.tickets[t].entered :: t in s.entries)
    && (forall i, j | 0 <= i < j < |s.entries| && SameKey(s.tickets, s.entries[i], s.entries[j]) ::
          s.entries[i] < s.entries[j])
  }

  predicate SameKey(tickets: seq<Ticket>, t: nat, u: nat) {
    t < |tickets| && u < |tickets| && tickets[t].key == tickets[u].key
  }

  predicate Inv(s: State) { AllChained(s.tickets) && LocksExact(s) && InOrder(s) }

  /** A promise is resolved exactly when its ticket and every earlier one of the key are released. */
  lemma {:induction false} SettledIff(tickets: seq<Ticket>, t: nat)
    requires AllChained(tickets) && t < |tickets|
    ensures Settled(tickets, t) <==> tickets[t].released && EarlierReleased(tickets, t)
    decreases t
  {
    assert Chained(tickets, t);
    var p := tickets[t].previous;
    if p.Some? {
      SettledIff(tickets, p.value);
      assert forall u | p.value < u < t :: tickets[u].key == tickets[..t][u].key;
    }
  }

  /** A caller is let past its wait exactly when every earlier ticket of its key is released. */
  lemma WaitIsOverIff(tickets: seq<Ticket>, t: nat)
    requires AllChained(tickets) && t < |tickets|
    ensures WaitIsOver(tickets, t) <==> EarlierReleased(tickets, t)
  {
    assert Chained(tickets, t);
    var p := tickets[t].previous;
    if p.Some? {
      SettledIff(tickets, p.value);
      assert forall u | p.value < u < t :: tickets[u].key == tickets[..t][u].key;
    }
  }

  /** Adding a ticket for a key whose map entry is `previous`. */
  lemma AppendKeepsChain(tickets: seq<Ticket>, ticket: Ticket)
    requires AllChained(tickets) && !ticket.released
    requires Chained(tickets + [ticket], |tickets|)
    ensures AllChained(tickets + [ticket])
  {
    var ts := tickets + [ticket];
    forall t | 0 <= t < |ts| ensures Chained(ts, t) {
      if t < |tickets| {
        assert Chained(tickets, t) && ts[..t] == tickets[..t];
      }
    }
  }

  lemma QueueKeepsInv(s: State, key: Key)
    requires Inv(s)
    ensures Inv(Queue(s, key))
  {
    var r := Queue(s, key);
    var ticket := r.tickets[|s.tickets|];
    if key in s.locks { assert r.tickets[..|s.tickets|] == s.tickets; }
    AppendKeepsChain(s.tickets, ticket);
  }

  lemma TakeKeepsInv(s: State, key: Key)
    requires Inv(s) && key !in s.locks
    ensures Inv(Take(s, key))
  {
    var r := Take(s, key);
    AppendKeepsChain(s.tickets, r.tickets[|s.tickets|]);
    EntryAppended(s, r, |s.tickets|);
  }

  /** An entry may be appended when every entered ticket of its key is an earlier one. */
  lemma EntryAppended(s: State, r: State, t: nat)
    requires InOrder(s) && r.entries == s.entries + [t] && t < |r.tickets|
    requires |r.tickets| == |s.tickets| || (t == |s.tickets| && |r.tickets| == t + 1)
    requires r.tickets[t].entered && EarlierEntered(s.tickets, r.tickets[t].key, t)
    requires forall u | 0 <= u < |s.tickets| && u != t :: r.tickets[u] == s.tickets[u]
    requires t < |s.tickets| ==> !s.tickets[t].entered
    ensures InOrder(r)
  {
    assert t !in s.entries;
    forall u: nat | u < |r.tickets| && r.tickets[u].entered ensures u in r.entries {
      if u == t {
        assert r.entries[|s.entries|] == t;
      } else {
        assert u in s.entries;
      }
    }
    forall i, j | 0 <= i < j < |r.entries| && SameKey(r.tickets, r.entries[i], r.entries[j])
      ensures r.entries[i] < r.entries[j]
    {
      if j < |s.entries| {
        assert s.entries[i] in s.entries && s.entries[j] in s.entries;
        assert SameKey(s.tickets, s.entries[i], s.entries[j]);
      } else {
        assert s.entries[i] in s.entries;
      }
    }
  }

  predicate EarlierEntered(tickets: seq<Ticket>, key: Key, t: nat) {
    forall u | 0 <= u < |tickets| && tickets[u].key == key && tickets[u].entered :: u < t
  }

  lemma EnterKeepsInv(s: State, t: nat)
    requires Inv(s) && t < |s.tickets| && !s.tickets[t].entered && WaitIsOver(s.tickets, t)
    ensures Inv(Enter(s, t))
  {
    var r := Enter(s, t);
    WaitIsOverIff(s.tickets, t);
    forall u | 0 <= u < |r.tickets| ensures Chained(r.tickets, u) {
      assert Chained(s.tickets, u);
      UpdateKeepsChain(s.tickets, t, r.tickets[t], u);
    }
    forall u | 0 <= u < |s.tickets| && s.tickets[u].key == s.tickets[t].key && s.tickets[u].entered ensures u < t {
      assert Chained(s.tickets, u) && Chained(s.tickets, t);
    }
    EntryAppended(s, r, t);
  }

  /** Flags only go up, so a ticket other than the updated one stays chained. */
  lemma UpdateKeepsChain(tickets: seq<Ticket>, t: nat, ticket: Ticket, u: nat)
    requires t < |tickets| && u < |tickets| && Chained(tickets, u)
    requires ticket.key == tickets[t].key && ticket.previous == tickets[t].previous
    requires tickets[t].released ==> ticket.released
    requires u == t ==> ticket.entered && EarlierReleased(tickets, t)
    ensures Chained(tickets[t := ticket], u)
  {
    var p := tickets[u].previous;
    if p.Some? {
      var a, b := tickets[..u], tickets[t := ticket][..u];
      assert forall i | 0 <= i < u :: a[i].key == b[i].key;
    }
  }

  lemma ReleaseKeepsInv(s: State, t: nat)
    requires Inv(s) && t < |s.tickets| && s.tickets[t].entered
    ensures Inv(Free(s, t))
  {
    if !s.tickets[t].released {
      var r := Free(s, t);
      assert Chained(s.tickets, t);
      forall u | 0 <= u < |r.tickets| ensures Chained(r.tickets, u) {
        assert Chained(s.tickets, u);
        UpdateKeepsChain(s.tickets, t, r.tickets[t], u);
      }
      ReleaseKeepsLocks(s, t);
      ReleaseKeepsOrder(s, t);
    }
  }

  lemma ReleaseKeepsOrder(s: State, t: nat)
    requires InOrder(s) && t < |s.tickets|
    ensures InOrder(Free(s, t))
  {
    var r := Free(s, t);
    forall i, j | 0 <= i < j < |r.entries| && SameKey(r.tickets, r.entries[i], r.entries[j])
      ensures r.entries[i] < r.entries[j]
    {
      assert SameKey(s.tickets, s.entries[i], s.entries[j]);
    }
  }

  lemma ReleaseKeepsLocks(s: State, t: nat)
    requires Inv(s) && t < |s.tickets| && s.tickets[t].entered && !s.tickets[t].released
    ensures LocksExact(Free(s, t))
  {
    var r, key := Free(s, t), s.tickets[t].key;
    assert Chained(s.tickets, t);
    assert EarlierReleased(s.tickets, t);
    forall u | 0 <= u < |r.tickets| && !r.tickets[u].released ensures r.tickets[u].key in r.locks {
      assert !s.tickets[u].released && (s.locks[key] == t ==> r.tickets[u].key != key);
    }
  }

  lemma {:induction false} RunKeepsInv(steps: seq<Step>)
    requires Run(INIT, steps).Some?
    ensures Inv(Run(INIT, steps).value)
  {
    if steps != [] {
      RunKeepsInv(steps[..|steps| - 1]);
      var s, step := Run(INIT, steps[..|steps| - 1]).value, steps[|steps| - 1];
      match step
      case AcquireStep(key) => QueueKeepsInv(s, key);
      case TryStep(key) => if key !in s.locks { TakeKeepsInv(s, key); }
      case EnterStep(t) => EnterKeepsInv(s, t);
      case ReleaseStep(t) => ReleaseKeepsInv(s, t);
    }
  }

  // ---- The theorems ----

  predicate Holds(s: State, t: nat) { t < |s.tickets| && s.tickets[t].entered && !s.tickets[t].released }

  /** In every run each key has at most one holder. */
  lemma AtMostOneHolder(steps: seq<Step>, t: nat, u: nat)
    requires Run(INIT, steps).Some?
    requires var s := Run(INIT, steps).value; Holds(s, t) && Holds(s, u) && s.tickets[t].key == s.tickets[u].key
    ensures t == u
  {
    RunKeepsInv(steps);
    var s := Run(INIT, steps).value;
    assert Chained(s.tickets, t) && Chained(s.tickets, u);
  }

  /** In every run the callers of a key get in, each once, in the order of their calls. */
  lemma EntriesAreFifo(steps: seq<Step>, i: nat, j: nat)
    requires Run(INIT, steps).Some?
    requires var s := Run(INIT, steps).value;
      i < j < |s.entries| && SameKey(s.tickets, s.entries[i], s.entries[j])
    ensures Run(INIT, steps).value.entries[i] < Run(INIT, steps).value.entries[j]
  {
    RunKeepsInv(steps);
  }

  /** In every run a key is in the map exactly while one of its tickets is unreleased. */
  lemma LockedIff(steps: seq<Step>, key: Key)
    requires Run(INIT, steps).Some?
    ensures var s := Run(INIT, steps).value;
      key in s.locks <==> exists t | 0 <= t < |s.tickets| :: s.tickets[t].key == key && !s.tickets[t].released
  {
    RunKeepsInv(steps);
    var s := Run(INIT, steps).value;
    if key in s.locks {
      assert s.tickets[s.locks[key]].key == key;
    }
  }

  /**
    Nobody is kept waiting by anything but an unreleased earlier ticket: in every run a ticket
    may enter exactly when it has not, and all the earlier ones of its key are released.
   */
  lemma EntersIff(steps: seq<Step>, t: nat)
    requires Run(INIT, steps).Some? && t < |Run(INIT, steps).value.tickets|
    ensures var s := Run(INIT, steps).value;
      Apply(s, EnterStep(t)).Some? <==> !s.tickets[t].entered && EarlierReleased(s.tickets, t)
  {
    RunKeepsInv(steps);
    WaitIsOverIff(Run(INIT, steps).value.tickets, t);
  }

  /** In every run `tryAcquire` succeeds exactly when every ticket of the key is released. */
  lemma TrySucceedsIff(steps: seq<Step>, key: Key)
    requires Run(INIT, steps).Some?
    ensures var s := Run(INIT, steps).value;
      Apply(s, TryStep(key)) == Some(Take(s, key)) <==>
      forall t | 0 <= t < |s.tickets| && s.tickets[t].key == key :: s.tickets[t].released
  {
    LockedIff(steps, key);
  }

  /** Releasing again changes nothing, whatever happened since the first release. */
  lemma {:induction false} ReleasedStaysReleased(s: State, t: nat, steps: seq<Step>)
    requires t < |s.tickets| && s.tickets[t].entered && Run(Free(s, t), steps).Some?
    ensures var r := Run(Free(s, t), steps).value; Apply(r, ReleaseStep(t)) == Some(r)
  {
    StaysReleased(Free(s, t), t, steps);
  }

  lemma {:induction false} StaysReleased(s: State, t: nat, steps: seq<Step>)
    requires t < |s.tickets| && s.tickets[t].entered && s.tickets[t].released && Run(s, steps).Some?
    ensures var ts := Run(s, steps).value.tickets; t < |ts| && ts[t].entered && ts[t].released
  {
    if steps != [] { StaysReleased(s, t, steps[..|steps| - 1]); }
  }

  // ---- What a release does ----

  /** t's caller holds the lock; u is the next ticket of the key. */
  predicate NextTicket(tickets: seq<Ticket>, t: nat, u: nat) {
    t < u && SameKey(tickets, t, u) && forall v | t < v < u :: tickets[v].key != tickets[t].key
  }

  lemma ReleaseOpensTheWay(s: State, t: nat, r: State, u: nat)
    requires Inv(s) && Holds(s, t) && Apply(s, ReleaseStep(t)) == Some(r) && Inv(r)
    requires NextTicket(s.tickets, t, u)
    ensures Apply(r, EnterStep(u)).Some?
  {
    assert Chained(s.tickets, u) && Chained(s.tickets, t);
    WaitIsOverIff(r.tickets, u);
    assert EarlierReleased(s.tickets, t);
    assert !s.tickets[u].entered;
  }

  /** The new ticket of a successful `tryAcquire` holds the lock. */
  lemma TryGivesAHolder(s: State, key: Key)
    requires key !in s.locks
    ensures Apply(s, TryStep(key)).Some?
    ensures var after := Apply(s, TryStep(key)).value;
      && |after.tickets| == |s.tickets| + 1 && after.tickets[..|s.tickets|] == s.tickets
      && Holds(after, |s.tickets|) && after.tickets[|s.tickets|].key == key
      && after.locks == s.locks[key := |s.tickets|]
  {
  }

  /**
    In every run a holder's release frees its ticket and no other. The next ticket of the
    key may then enter; without another unreleased ticket the key leaves the map, and
    `tryAcquire` gives a holder. Other keys keep their entries.
   */
  lemma ReleaseHandsOver(steps: seq<Step>, s: State, t: nat)
    requires Run(INIT, steps) == Some(s) && Holds(s, t)
    ensures Apply(s, ReleaseStep(t)).Some?
    ensures var r := Apply(s, ReleaseStep(t)).value;
      && |r.tickets| == |s.tickets| && r.entries == s.entries
      && r.tickets[t] == s.tickets[t].(released := true) && !Holds(r, t)
      && (forall u | 0 <= u < |s.tickets| && u != t :: r.tickets[u] == s.tickets[u])
      && (forall u | NextTicket(s.tickets, t, u) :: Apply(r, EnterStep(u)).Some?)
      && (forall key | key != s.tickets[t].key :: key in r.locks <==> key in s.locks)
      && (forall key | key != s.tickets[t].key && key in s.locks :: r.locks[key] == s.locks[key])
    ensures var r, key := Apply(s, ReleaseStep(t)).value, s.tickets[t].key;
      if exists u :: 0 <= u < |s.tickets| && u != t && s.tickets[u].key == key && !s.tickets[u].released
      then key in r.locks && r.locks[key] == s.locks[key]
      else key !in r.locks && Apply(r, TryStep(key)).Some? && Holds(Apply(r, TryStep(key)).value, |r.tickets|)
  {
    RunKeepsInv(steps);
    ReleaseKeepsInv(s, t);
    var r, key := Apply(s, ReleaseStep(t)).value, s.tickets[t].key;
    forall u | NextTicket(s.tickets, t, u) ensures Apply(r, EnterStep(u)).Some? { ReleaseOpensTheWay(s, t, r, u); }
    if u :| 0 <= u < |s.tickets| && u != t && s.tickets[u].key == key && !s.tickets[u].released {
      assert !r.tickets[u].released;
    } else {
      TryGivesAHolder(r, key);
    }
  }

  /** What the other calls change: an acquire adds a waiting ticket, an entry makes a holder of one. */
  lemma WaitingAndEntering(s: State, key: Key, t: nat)
    requires Inv(s)
    ensures Apply(s, AcquireStep(key)).Some?
    ensures var q, n := Apply(s, AcquireStep(key)).value, |s.tickets|;
      && |q.tickets| == n + 1 && q.tickets[..n] == s.tickets && q.entries == s.entries
      && q.tickets[n].key == key && !q.tickets[n].entered && !q.tickets[n].released
      && q.locks == s.locks[key := n]
    ensures Apply(s, EnterStep(t)).Some? ==>
      var e := Apply(s, EnterStep(t)).value;
      && Holds(e, t) && e.locks == s.locks && e.entries == s.entries + [t]
      && |e.tickets| == |s.tickets| && e.tickets[t] == s.tickets[t].(entered := true)
      && forall u | 0 <= u < |s.tickets| && u != t :: e.tickets[u] == s.tickets[u]
  {
    if t < |s.tickets| { assert Chained(s.tickets, t); }
  }
}
