/**
  The single-consumer queue that hands one turn's events from the process reader to the
  request (apps/api/src/agent/turn-event-queue.ts).
 */
module TurnQueue {
  import opened Options

  type Event(==, !new)
  type Failure(==, !new)

  /** What a pending wait was settled with. */
  datatype Settlement = Next(event: Event) | Nothing | Rejected(failure: Failure)

  /**
    Where the consumer's generator stands: none open; between two turns of its loop (opened,
    or paused at a yield); waiting on the pending promise; or with that promise settled
    and its continuation not yet run.
   */
  datatype Phase = Off | Ready | Waiting | Woken(with: Settlement)

  /** How an iteration ended by itself. */
  datatype Ending = Returned | Threw(failure: Failure)

  /** The fields, the consumer's position, and two histories: accepted and delivered events. */
  datatype State = State(
    buffer: seq<Event>, pending: bool, done: bool, disposed: bool, failure: Option<Failure>, iterating: bool,
    phase: Phase, accepted: seq<Event>, delivered: seq<Event>, endings: seq<Ending>)

  const FRESH := State([], false, false, false, None, false, Off, [], [], [])

  predicate Closed(s: State) { s.done || s.disposed || s.failure.Some? }

  // ---- What each call does to the state ----

  function Enqueued(s: State, e: Event): State {
    if Closed(s) then s
    else
      var t := s.(accepted := s.accepted + [e]);
      if s.pending then t.(pending := false, phase := Woken(Next(e))) else t.(buffer := s.buffer + [e])
  }

  function Settle(s: State, with: Settlement): State {
    if s.pending then s.(pending := false, phase := Woken(with)) else s
  }

  function Completed(s: State): State {
    if s.done || s.disposed then s else Settle(s.(done := true), Nothing)
  }

  function Failed(s: State, f: Failure): State {
    if s.done || s.disposed then s else Settle(s.(failure := Some(f)), Rejected(f))
  }

  function Disposed(s: State): State {
    if s.disposed then s else Settle(s.(disposed := true, done := true, failure := None, buffer := []), Nothing)
  }

  function Opened(s: State): State { if s.iterating then s else s.(iterating := true, phase := Ready) }

  /** One turn of the loop, up to the next yield, wait or end. */
  function Turn(s: State): State {
    if s.buffer != [] then s.(buffer := s.buffer[1..], delivered := s.delivered + [s.buffer[0]], phase := Ready)
    else if s.failure.Some? then End(s, Threw(s.failure.value))
    else if s.done || s.disposed then End(s, Returned)
    else s.(pending := true, phase := Waiting)
  }

  function End(s: State, ending: Ending): State {
    s.(iterating := false, phase := Off, endings := s.endings + [ending])
  }

  /** The consumer continues from where it stands. */
  function Continued(s: State): State {
    match s.phase
    case Ready => Turn(s)
    case Woken(Next(e)) => s.(delivered := s.delivered + [e], phase := Ready)
    case Woken(Nothing) => Turn(s)
    case Woken(Rejected(f)) => End(s, Threw(f))
    case _ => s
  }

  class TurnEventQueue {
    var buffer: seq<Event>
    var pending: bool
    var done: bool
    var disposed: bool
    var failure: Option<Failure>
    var iterating: bool
    var phase: Phase
    ghost var accepted: seq<Event>
    ghost var delivered: seq<Event>
    ghost var endings: seq<Ending>

    ghost function Value(): State
      reads this
    {
      State(buffer, pending, done, disposed, failure, iterating, phase, accepted, delivered, endings)
    }

    constructor ()
      ensures Value() == FRESH
    {
      buffer, pending, done, disposed, failure, iterating, phase := [], false, false, false, None, false, Off;
      accepted, delivered, endings := [], [], [];
    }

    method Push(e: Event) returns (ok: bool)
      modifies this
      ensures Value() == old(Enqueued(Value(), e))
      ensures ok <==> old(!Closed(Value()))
    {
      if done || disposed || failure.Some? {
        return false;
      }
      accepted := accepted + [e];
      if pending {
        pending := false;
        phase := Woken(Next(e));
        return true;
      }
      buffer := buffer + [e];
      return true;
    }

    method ResolvePending(with: Settlement)
      modifies this`pending, this`phase
      ensures Value() == old(Settle(Value(), with))
    {
      if !pending {
        return;
      }
      pending := false;
      phase := Woken(with);
    }

    method Complete()
      modifies this
      ensures Value() == old(Completed(Value()))
    {
      if done || disposed {
        return;
      }
      done := true;
      ResolvePending(Nothing);
    }

    method Error(f: Failure)
      modifies this
      ensures Value() == old(Failed(Value(), f))
    {
      if done || disposed {
        return;
      }
      failure := Some(f);
      ResolvePending(Rejected(f));
    }

    method Dispose()
      modifies this
      ensures Value() == old(Disposed(Value()))
    {
      if disposed {
        return;
      }
      disposed := true;
      done := true;
      failure := None;
      buffer := [];
      ResolvePending(Nothing);
    }

    /** `[Symbol.asyncIterator]()`; a second concurrent consumer is refused. */
    method OpenIteration() returns (ok: bool)
      modifies this
      ensures Value() == old(Opened(Value())) && ok == !old(iterating)
    {
      if iterating {
        return false;
      }
      iterating := true;
      phase := Ready;
      return true;
    }

    /** Runs `iterate` from a resumption to its next yield, wait or end. */
    method Resume()
      requires phase.Ready? || phase.Woken?
      modifies this
      ensures Value() == old(Continued(Value()))
    {
      if phase.Woken? {
        var next := phase.with;
        if next.Next? {
          delivered := delivered + [next.event];
          phase := Ready;
          return;
        }
        if next.Rejected? {
          iterating := false;
          phase := Off;
          endings := endings + [Threw(next.failure)];
          return;
        }
      }
      if |buffer| > 0 {
        delivered := delivered + [buffer[0]];
        buffer := buffer[1..];
        phase := Ready;
      } else if failure.Some? {
        iterating := false;
        phase := Off;
        endings := endings + [Threw(failure.value)];
      } else if done || disposed {
        iterating := false;
        phase := Off;
        endings := endings + [Returned];
      } else {
        pending := true;
        phase := Waiting;
      }
    }
  }

  // ---- Runs ----

  datatype Step =
    | PushStep(event: Event) | CompleteStep | FailStep(failure: Failure) | DisposeStep
    | OpenStep | ResumeStep | BreakStep

  /** The consumer's steps need a consumer that can take them; it may leave its loop at a yield. */
  function Apply(s: State, step: Step): Option<State> {
    match step
    case PushStep(e) => Some(Enqueued(s, e))
    case CompleteStep => Some(Completed(s))
    case FailStep(f) => Some(Failed(s, f))
    case DisposeStep => Some(Disposed(s))
    case OpenStep => Some(Opened(s))
    case ResumeStep => if s.phase.Ready? || s.phase.Woken? then Some(Continued(s)) else None
    case BreakStep => if s.phase.Ready? then Some(s.(iterating := false, phase := Off)) else None
  }

  function Run(s: State, steps: seq<Step>): Option<State> {
    if steps == [] then Some(s)
    else
      var before := Run(s, steps[..|steps| - 1]);
      if before.None? then None else Apply(before.value, steps[|steps| - 1])
  }

  function InFlight(phase: Phase): seq<Event> { if phase.Woken? && phase.with.Next? then [phase.with.event] else [] }

  predicate Inv(s: State) {
    && (s.pending <==> s.phase.Waiting?)
    && (s.iterating <==> !s.phase.Off?)
    && (s.pending ==> s.buffer == [] && !Closed(s))
    && (s.disposed ==> s.done && s.buffer == [])
    && (s.phase == Woken(Nothing) ==> s.done)
    && (s.phase.Woken? && s.phase.with.Rejected? ==> Closed(s) && s.buffer == [])
    && (!s.disposed ==> s.accepted == s.delivered + InFlight(s.phase) + s.buffer)
    && (s.disposed ==> s.delivered + InFlight(s.phase) <= s.accepted)
    && (s.endings != [] ==> Closed(s) && (!s.disposed ==> s.buffer == [] && InFlight(s.phase) == []))
  }

  lemma StepKeepsInv(s: State, step: Step)
    requires Inv(s) && Apply(s, step).Some?
    ensures Inv(Apply(s, step).value)
  {
    match step
    case ResumeStep => ContinueKeepsInv(s);
    case _ =>
  }

  lemma TurnKeepsInv(s: State)
    requires Inv(s) && (s.phase.Ready? || s.phase == Woken(Nothing))
    ensures Inv(Turn(s))
  {
    if s.buffer != [] {
      assert s.buffer == [s.buffer[0]] + s.buffer[1..];
    }
  }

  lemma ContinueKeepsInv(s: State)
    requires Inv(s) && (s.phase.Ready? || s.phase.Woken?)
    ensures Inv(Continued(s))
  {
    match s.phase
    case Ready => TurnKeepsInv(s);
    case Woken(Nothing) => TurnKeepsInv(s);
    case Woken(Next(e)) =>
    case Woken(Rejected(f)) =>
  }

  lemma {:induction false} RunKeepsInv(steps: seq<Step>)
    requires Run(FRESH, steps).Some?
    ensures Inv(Run(FRESH, steps).value)
  {
    if steps != [] {
      RunKeepsInv(steps[..|steps| - 1]);
      StepKeepsInv(Run(FRESH, steps[..|steps| - 1]).value, steps[|steps| - 1]);
    }
  }

  // ---- The theorems ----

  /** In every run, a waiting consumer means an empty buffer and no terminal flag. */
  lemma WaitingMeansNothingToDo(steps: seq<Step>)
    requires Run(FRESH, steps).Some? && Run(FRESH, steps).value.phase.Waiting?
    ensures var s := Run(FRESH, steps).value;
      s.buffer == [] && !s.done && !s.disposed && s.failure.None? && s.delivered == s.accepted
  {
    RunKeepsInv(steps);
  }

  /** In every run the consumer has received a prefix of the accepted events, in order. */
  lemma DeliveredInOrder(steps: seq<Step>)
    requires Run(FRESH, steps).Some?
    ensures Run(FRESH, steps).value.delivered <= Run(FRESH, steps).value.accepted
  {
    RunKeepsInv(steps);
  }

  /**
    In every run without dispose, once an iteration has ended, by returning or by
    throwing, everything ever accepted has been received, and nothing follows.
   */
  lemma AllBeforeTheEnd(steps: seq<Step>)
    requires Run(FRESH, steps).Some?
    requires var s := Run(FRESH, steps).value; !s.disposed && s.endings != []
    ensures var s := Run(FRESH, steps).value;
      s.delivered == s.accepted && forall e :: Enqueued(s, e) == s
  {
    RunKeepsInv(steps);
  }

  /** n resumptions in a row. */
  function Resumed(s: State, n: nat): State
    decreases n
  {
    if n == 0 then s else Resumed(Continued(s), n - 1)
  }

  function ToCome(s: State): nat { |InFlight(s.phase)| + |s.buffer| }

  /** A consumer of a closed queue can go on. */
  predicate Draining(s: State) { Inv(s) && Closed(s) && (s.phase.Ready? || s.phase.Woken?) && !s.disposed }

  predicate Drained(s: State, r: State) {
    && r.phase.Off? && r.delivered == r.accepted == s.accepted
    && |r.endings| == |s.endings| + 1 && (r.endings[|s.endings|].Returned? ==> s.done)
  }

  /** A closed queue drains: a consumer with n events to come ends at its (n + 1)-st resumption. */
  lemma {:induction false} ClosedQueueDrains(s: State, n: nat)
    requires Draining(s) && n == ToCome(s)
    ensures Drained(s, Resumed(s, n + 1))
    decreases n
  {
    var t := Continued(s);
    assert Resumed(s, n + 1) == Resumed(t, n);
    if n > 0 { ClosedQueueDrains(t, n - 1); }
  }

  /** At most one consumer: opening again while one is open changes nothing. */
  lemma OneConsumer(steps: seq<Step>)
    requires Run(FRESH, steps).Some?
    ensures var s := Run(FRESH, steps).value; Opened(s) == s <==> !s.phase.Off?
  {
    RunKeepsInv(steps);
  }

  // ---- What a producer's and a consumer's step do ----

  /** The events that were accepted and are still to be received. */
  function Coming(s: State): seq<Event> { InFlight(s.phase) + s.buffer }

  /** In every run a push on an open queue is accepted behind all others, and wakes a waiting consumer with it. */
  lemma PushIsAccepted(steps: seq<Step>, s: State, e: Event)
    requires Run(FRESH, steps) == Some(s)
    ensures Apply(s, PushStep(e)).Some?
    ensures var t := Apply(s, PushStep(e)).value;
      if s.done || s.disposed || s.failure.Some? then t == s
      else
        && t.accepted == s.accepted + [e] && Coming(t) == Coming(s) + [e]
        && t.delivered == s.delivered && t.endings == s.endings
        && !t.done && !t.disposed && t.failure.None?
        && t.phase == (if s.phase.Waiting? then Woken(Next(e)) else s.phase)
  {
    RunKeepsInv(steps);
  }

  /** In every run `complete` ends an open queue and wakes a waiting consumer; events to come stay. */
  lemma CompleteCloses(steps: seq<Step>, s: State)
    requires Run(FRESH, steps) == Some(s)
    ensures Apply(s, CompleteStep).Some?
    ensures var t := Apply(s, CompleteStep).value;
      && t.done && t.disposed == s.disposed && t.failure == s.failure
      && t.accepted == s.accepted && t.delivered == s.delivered && t.endings == s.endings && Coming(t) == Coming(s)
      && t.phase == (if s.phase.Waiting? then Woken(Nothing) else s.phase)
  {
    RunKeepsInv(steps);
  }

  /** So does `error`, unless the queue has been completed or disposed of; the last error counts. */
  lemma ErrorCloses(steps: seq<Step>, s: State, f: Failure)
    requires Run(FRESH, steps) == Some(s)
    ensures Apply(s, FailStep(f)).Some?
    ensures var t := Apply(s, FailStep(f)).value;
      if s.done || s.disposed then t == s
      else
        && t.failure == Some(f) && !t.done && !t.disposed
        && t.accepted == s.accepted && t.delivered == s.delivered && t.endings == s.endings && Coming(t) == Coming(s)
        && t.phase == (if s.phase.Waiting? then Woken(Rejected(f)) else s.phase)
  {
    RunKeepsInv(steps);
  }

  /** `dispose` drops what is buffered and any error, and wakes a waiting consumer. */
  lemma DisposeDrops(steps: seq<Step>, s: State)
    requires Run(FRESH, steps) == Some(s)
    ensures Apply(s, DisposeStep).Some?
    ensures var t := Apply(s, DisposeStep).value;
      && t.disposed && t.done && t.buffer == [] && (!s.disposed ==> t.failure.None?)
      && t.accepted == s.accepted && t.delivered == s.delivered && t.endings == s.endings
      && t.phase == (if s.phase.Waiting? then Woken(Nothing) else s.phase)
  {
    RunKeepsInv(steps);
  }

  /**
    In every run a consumer that can go on receives the next event to come. When there is none it
    throws the error, returns from a completed or disposed queue, and waits on an open one.
   */
  lemma ResumptionIs(steps: seq<Step>, s: State)
    requires Run(FRESH, steps) == Some(s)
    ensures Apply(s, ResumeStep).Some? <==> s.phase.Ready? || s.phase.Woken?
    ensures Apply(s, ResumeStep).Some? ==>
      var t := Apply(s, ResumeStep).value;
      && t.accepted == s.accepted && t.done == s.done && t.disposed == s.disposed && t.failure == s.failure
      && if Coming(s) != [] then
           t.phase.Ready? && t.delivered == s.delivered + [Coming(s)[0]] && Coming(t) == Coming(s)[1..]
           && t.endings == s.endings
         else
           && t.delivered == s.delivered
           && if s.phase.Woken? && s.phase.with.Rejected? then
                t.phase.Off? && t.endings == s.endings + [Threw(s.phase.with.failure)]
              else if s.failure.Some? then t.phase.Off? && t.endings == s.endings + [Threw(s.failure.value)]
              else if s.done || s.disposed then t.phase.Off? && t.endings == s.endings + [Returned]
              else t.phase.Waiting? && t.endings == s.endings
  {
    RunKeepsInv(steps);
  }

  /** A consumer can be opened whenever there is none, and can then go on; one that pauses at a yield can leave. */
  lemma OpeningAndLeaving(steps: seq<Step>, s: State)
    requires Run(FRESH, steps) == Some(s)
    ensures Apply(s, OpenStep) == Some(if s.phase.Off? then s.(iterating := true, phase := Ready) else s)
    ensures s.phase.Ready? ==> Apply(s, BreakStep) == Some(s.(iterating := false, phase := Off))
  {
    RunKeepsInv(steps);
  }
}
