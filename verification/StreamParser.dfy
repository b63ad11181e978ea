/**
  Routes the lines of a long-lived process to the turn open when each line is read
  (apps/api/src/agent/persistent-stream-parser.ts).
 */
module StreamParser {
  import opened Options
  import Queue = TurnQueue

  type Event = Queue.Event
  type TurnId = nat
  type ReaderId = nat

  /** What a line parses to: nothing, or the events it maps to and whether it is a result. */
  datatype Line = Ignored | Record(events: seq<Event>, isResult: bool)

  /** The fields, every turn ever created, and for every reader whether its loop still runs. */
  datatype State = State(
    active: Option<TurnId>, lines: Option<ReaderId>, stopped: bool,
    turns: seq<Queue.State>, loops: seq<bool>)

  const INIT := State(None, None, false, [], [])

  predicate Valid(s: State) {
    && (s.active.Some? ==> s.active.value < |s.turns| && s.lines.Some? && !s.stopped)
    && (s.lines.Some? ==> s.lines.value < |s.loops|)
  }

  // ---- What each call does ----

  /** `inject`/`push` on the active turn, if any. */
  function Deliver(s: State, e: Event): State
    requires Valid(s)
  {
    if s.active.None? then s
    else s.(turns := s.turns[s.active.value := Queue.Enqueued(s.turns[s.active.value], e)])
  }

  function DeliverAll(s: State, es: seq<Event>): State
    requires Valid(s)
    ensures Valid(DeliverAll(s, es))
    decreases |es|
  {
    if es == [] then s else DeliverAll(Deliver(s, es[0]), es[1..])
  }

  /** How the active turn is let go. */
  datatype Closing = Completing | Failing(failure: Queue.Failure) | Cancelling

  function CloseTurn(q: Queue.State, how: Closing): Queue.State {
    match how
    case Completing => Queue.Completed(q)
    case Failing(f) => Queue.Failed(q, f)
    case Cancelling => Queue.Disposed(q)
  }

  function CloseActive(s: State, how: Closing): State
    requires s.active.Some? ==> s.active.value < |s.turns|
  {
    if s.active.None? then s
    else s.(active := None, turns := s.turns[s.active.value := CloseTurn(s.turns[s.active.value], how)])
  }

  function Stopped(s: State): State
    requires Valid(s)
  {
    CloseActive(s, Completing).(stopped := true, lines := None)
  }

  function Started(s: State): State
    requires Valid(s)
  {
    Stopped(s).(stopped := false, lines := Some(|s.loops|), loops := s.loops + [true])
  }

  function WithTurn(s: State): State {
    if s.active.Some? || s.lines.None? || s.stopped then s
    else s.(active := Some(|s.turns|), turns := s.turns + [Queue.FRESH])
  }

  function HandleLine(s: State, line: Line): State
    requires Valid(s)
  {
    match line
    case Ignored => s
    case Record(es, isResult) =>
      if isResult then CloseActive(DeliverAll(s, es), Completing) else DeliverAll(s, es)
  }

  /** A running read loop gets one more line: a loop that is no longer the current one ends. */
  function ReadLine(s: State, r: ReaderId, line: Line): State
    requires Valid(s) && r < |s.loops|
  {
    if s.stopped || s.lines != Some(r) then s.(loops := s.loops[r := false]) else HandleLine(s, line)
  }

  /** A running read loop ends: at the end of its input, or by an error. */
  function EndLoop(s: State, r: ReaderId, how: Closing): State
    requires Valid(s) && r < |s.loops|
  {
    var t := if s.lines == Some(r) then CloseActive(s, how).(lines := None) else s;
    t.(loops := t.loops[r := false])
  }

  // ---- Runs ----

  datatype Step =
    | StartStep | StopStep | CreateStep | InjectStep(event: Event) | CancelStep
    | LineStep(reader: ReaderId, line: Line)
    | EndStep(reader: ReaderId)
    | BreakStep(reader: ReaderId, failure: Queue.Failure)
    | ConsumerStep(turn: TurnId, step: Queue.Step)

  /** The consumer of a turn only opens, resumes and leaves its iteration. */
  predicate IsConsuming(step: Queue.Step) { step.OpenStep? || step.ResumeStep? || step.BreakStep? }

  predicate Reading(s: State, r: ReaderId) { r < |s.loops| && s.loops[r] }

  function Apply(s: State, step: Step): (r: Option<State>)
    requires Valid(s)
    ensures r.Some? ==> Valid(r.value)
  {
    match step
    case StartStep => Some(Started(s))
    case StopStep => Some(Stopped(s))
    case CreateStep => Some(WithTurn(s))
    case InjectStep(e) => Some(Deliver(s, e))
    case CancelStep => Some(CloseActive(s, Cancelling))
    case LineStep(r, line) => if Reading(s, r) then Some(ReadLine(s, r, line)) else None
    case EndStep(r) => if Reading(s, r) then Some(EndLoop(s, r, Completing)) else None
    case BreakStep(r, f) => if Reading(s, r) then Some(EndLoop(s, r, Failing(f))) else None
    case ConsumerStep(k, q) =>
      if k < |s.turns| && IsConsuming(q) && Queue.Apply(s.turns[k], q).Some?
      then Some(s.(turns := s.turns[k := Queue.Apply(s.turns[k], q).value]))
      else None
  }

  function Run(s: State, steps: seq<Step>): (r: Option<State>)
    requires Valid(s)
    ensures r.Some? ==> Valid(r.value)
    decreases |steps|
  {
    if steps == [] then Some(s)
    else
      var next := Apply(s, steps[0]);
      if next.None? then None else Run(next.value, steps[1..])
  }

  class PersistentStreamParser {
    var active: Option<TurnId>
    var lines: Option<ReaderId>
    var stopped: bool
    var turns: seq<Queue.State>
    var loops: seq<bool>

    function Value(): State
      reads this
    {
      State(active, lines, stopped, turns, loops)
    }

    constructor ()
      ensures Value() == INIT
    {
      active, lines, stopped, turns, loops := None, None, false, [], [];
    }

    method InjectToActiveTurn(e: Event) returns (ok: bool)
      requires Valid(Value())
      modifies this`turns
      ensures Value() == old(Deliver(Value(), e))
      ensures ok <==> old(active.Some? && !Queue.Closed(turns[active.value]))
    {
      if active.None? {
        return false;
      }
      ok := !Queue.Closed(turns[active.value]);
      turns := turns[active.value := Queue.Enqueued(turns[active.value], e)];
    }

    method CloseActiveTurn(how: Closing)
      requires active.Some? ==> active.value < |turns|
      modifies this`active, this`turns
      ensures Value() == old(CloseActive(Value(), how))
    {
      if active.None? {
        return;
      }
      var k := active.value;
      active := None;
      turns := turns[k := CloseTurn(turns[k], how)];
    }

    method HandleOneLine(line: Line)
      requires Valid(Value())
      modifies this`active, this`turns
      ensures Value() == old(HandleLine(Value(), line))
    {
      if line.Ignored? {
        return;
      }
      ghost var before := Value();
      for i := 0 to |line.events|
        invariant Valid(Value())
        invariant DeliverAll(Value(), line.events[i..]) == DeliverAll(before, line.events)
      {
        var ok := InjectToActiveTurn(line.events[i]);
        assert line.events[i..][1..] == line.events[i + 1..];
      }
      if line.isResult {
        CloseActiveTurn(Completing);
      }
    }

    method Stop()
      requires Valid(Value())
      modifies this
      ensures Value() == old(Stopped(Value()))
    {
      stopped := true;
      CloseActiveTurn(Completing);
      lines := None;
    }

    method StartReading() returns (r: ReaderId)
      requires Valid(Value())
      modifies this
      ensures Value() == old(Started(Value())) && lines == Some(r)
    {
      Stop();
      stopped := false;
      r := |loops|;
      loops := loops + [true];
      lines := Some(r);
    }

    method CreateTurn() returns (k: Option<TurnId>)
      modifies this
      ensures Value() == old(WithTurn(Value()))
      ensures k.None? <==> old(active.Some? || lines.None? || stopped)
      ensures k.Some? ==> k == active
    {
      if active.Some? || lines.None? || stopped {
        return None;
      }
      k := Some(|turns|);
      turns := turns + [Queue.FRESH];
      active := k;
    }

    /** The body of the read loop for one line; the result says whether the loop goes on. */
    method OnLine(r: ReaderId, line: Line) returns (goesOn: bool)
      requires Valid(Value()) && Reading(Value(), r)
      modifies this
      ensures Value() == old(ReadLine(Value(), r, line))
      ensures goesOn <==> old(!stopped && lines == Some(r))
    {
      if stopped || lines != Some(r) {
        loops := loops[r := false];
        return false;
      }
      HandleOneLine(line);
      return true;
    }

    /** What follows the loop: after the last line, or in the `catch`, and then the `finally`. */
    method OnEnd(r: ReaderId, how: Closing)
      requires Valid(Value()) && Reading(Value(), r)
      modifies this
      ensures Value() == old(EndLoop(Value(), r, how))
    {
      if lines == Some(r) {
        CloseActiveTurn(how);
      }
      if lines == Some(r) {
        lines := None;
      }
      loops := loops[r := false];
    }
  }

  // ---- What a turn is fed ----

  /** The events a step has for a turn opened while reader r is current. */
  function EventsOf(step: Step, r: ReaderId): seq<Event> {
    match step
    case InjectStep(e) => [e]
    case LineStep(q, Record(es, _)) => if q == r then es else []
    case _ => []
  }

  /** How a step lets go of a turn opened while reader r is current. */
  function LetsGo(step: Step, r: ReaderId): Option<Closing> {
    match step
    case StartStep => Some(Completing)
    case StopStep => Some(Completing)
    case CancelStep => Some(Cancelling)
    case LineStep(q, Record(es, isResult)) => if q == r && isResult then Some(Completing) else None
    case EndStep(q) => if q == r then Some(Completing) else None
    case BreakStep(q, f) => if q == r then Some(Failing(f)) else None
    case _ => None
  }

  /** The events of the steps up to and including the first that lets go of the turn. */
  function Fed(steps: seq<Step>, r: ReaderId): seq<Event> {
    if steps == [] then []
    else EventsOf(steps[0], r) + (if LetsGo(steps[0], r).Some? then [] else Fed(steps[1..], r))
  }

  /** How the turn was first let go, if it was. */
  function LetGo(steps: seq<Step>, r: ReaderId): Option<Closing> {
    if steps == [] then None
    else if LetsGo(steps[0], r).Some? then LetsGo(steps[0], r)
    else LetGo(steps[1..], r)
  }

  /** The terminal flags of a turn let go in a given way. */
  predicate Flags(q: Queue.State, how: Option<Closing>) {
    match how
    case None => !q.done && !q.disposed && q.failure.None?
    case Some(Completing) => q.done && !q.disposed && q.failure.None?
    case Some(Failing(f)) => !q.done && !q.disposed && q.failure == Some(f)
    case Some(Cancelling) => q.done && q.disposed && q.failure.None?
  }

  // ---- One turn through a run ----

  predicate QueuesInv(s: State) { forall k | 0 <= k < |s.turns| :: Queue.Inv(s.turns[k]) }

  predicate Sound(s: State) { Valid(s) && QueuesInv(s) }

  /** Turn k is the active one, opened while reader r is current. */
  predicate Active(s: State, k: TurnId, r: ReaderId) {
    Valid(s) && s.active == Some(k) && s.lines == Some(r) && Flags(s.turns[k], None)
  }

  /** Turn k was let go. */
  predicate Gone(s: State, k: TurnId) { k < |s.turns| && s.active != Some(k) }

  lemma DeliverTo(s: State, e: Event)
    requires Sound(s)
    ensures var t := Deliver(s, e);
      Sound(t) && t == s.(turns := t.turns) && |t.turns| == |s.turns|
      && (forall k | 0 <= k < |s.turns| && s.active != Some(k) :: t.turns[k] == s.turns[k])
  {
    if s.active.Some? { Queue.StepKeepsInv(s.turns[s.active.value], Queue.PushStep(e)); }
  }

  lemma {:induction false} DeliverAllTo(s: State, es: seq<Event>)
    requires Sound(s)
    ensures var t := DeliverAll(s, es);
      Sound(t) && t == s.(turns := t.turns) && |t.turns| == |s.turns|
      && (forall k | 0 <= k < |s.turns| && s.active != Some(k) :: t.turns[k] == s.turns[k])
    decreases |es|
  {
    if es != [] {
      DeliverTo(s, es[0]);
      DeliverAllTo(Deliver(s, es[0]), es[1..]);
    }
  }

  lemma {:induction false} ActiveTakesAll(s: State, es: seq<Event>, k: TurnId, r: ReaderId)
    requires Active(s, k, r)
    ensures var t := DeliverAll(s, es); Active(t, k, r) && t.turns[k].accepted == s.turns[k].accepted + es
    decreases |es|
  {
    if es != [] {
      ActiveTakesAll(Deliver(s, es[0]), es[1..], k, r);
      assert s.turns[k].accepted + [es[0]] + es[1..] == s.turns[k].accepted + es;
    }
  }

  lemma CloseActiveIsSound(s: State, how: Closing)
    requires Sound(s)
    ensures Sound(CloseActive(s, how)) && |CloseActive(s, how).turns| == |s.turns|
  {
  }

  lemma HandleLineIsSound(s: State, line: Line)
    requires Sound(s)
    ensures Sound(HandleLine(s, line)) && |HandleLine(s, line).turns| == |s.turns|
  {
    if line.Record? {
      DeliverAllTo(s, line.events);
      CloseActiveIsSound(DeliverAll(s, line.events), Completing);
    }
  }

  lemma StepIsSound(s: State, step: Step)
    requires Sound(s) && Apply(s, step).Some?
    ensures Sound(Apply(s, step).value) && |Apply(s, step).value.turns| >= |s.turns|
  {
    match step
    case LineStep(r, line) => HandleLineIsSound(s, line);
    case CancelStep => CloseActiveIsSound(s, Cancelling);
    case BreakStep(r, f) => CloseActiveIsSound(s, Failing(f));
    case InjectStep(e) => DeliverTo(s, e);
    case ConsumerStep(k, q) => Queue.StepKeepsInv(s.turns[k], q);
    case _ => CloseActiveIsSound(s, Completing);
  }

  /** The same events accepted and the same terminal flags. */
  predicate SameIntake(q: Queue.State, p: Queue.State) {
    p.accepted == q.accepted && p.done == q.done && p.disposed == q.disposed && p.failure == q.failure
  }

  /** A consumer changes neither. */
  lemma ConsumingKeeps(q: Queue.State, step: Queue.Step)
    requires IsConsuming(step) && Queue.Apply(q, step).Some?
    ensures SameIntake(q, Queue.Apply(q, step).value)
  {
  }

  /** Nothing more reaches a turn that was let go. */
  lemma GoneStaysGone(s: State, step: Step, k: TurnId)
    requires Sound(s) && Gone(s, k) && Apply(s, step).Some?
    ensures Gone(Apply(s, step).value, k) && SameIntake(s.turns[k], Apply(s, step).value.turns[k])
  {
    match step
    case LineStep(r, line) => if line.Record? { DeliverAllTo(s, line.events); }
    case ConsumerStep(j, q) => ConsumingKeeps(s.turns[j], q);
    case _ =>
  }

  /** What one step does to the active turn. */
  predicate TurnStep(s: State, t: State, step: Step, k: TurnId, r: ReaderId)
    requires k < |s.turns|
  {
    && k < |t.turns|
    && t.turns[k].accepted == s.turns[k].accepted + EventsOf(step, r)
    && Flags(t.turns[k], LetsGo(step, r))
    && (LetsGo(step, r).None? ==> Active(t, k, r))
    && (LetsGo(step, r).Some? ==> Gone(t, k))
  }

  lemma LineStepOf(s: State, q: ReaderId, line: Line, k: TurnId, r: ReaderId)
    requires Sound(s) && Active(s, k, r) && Reading(s, q)
    ensures TurnStep(s, ReadLine(s, q, line), LineStep(q, line), k, r)
  {
    if q == r && line.Record? { ActiveTakesAll(s, line.events, k, r); }
  }

  lemma ActiveStep(s: State, step: Step, k: TurnId, r: ReaderId)
    requires Sound(s) && Active(s, k, r) && Apply(s, step).Some?
    ensures TurnStep(s, Apply(s, step).value, step, k, r)
  {
    match step
    case LineStep(q, line) => LineStepOf(s, q, line, k, r);
    case ConsumerStep(j, q) => ConsumingKeeps(s.turns[j], q);
    case _ =>
  }

  lemma {:induction false} GoneForGood(s: State, steps: seq<Step>, k: TurnId)
    requires Sound(s) && Gone(s, k) && Run(s, steps).Some?
    ensures var t := Run(s, steps).value; Sound(t) && Gone(t, k) && SameIntake(s.turns[k], t.turns[k])
    decreases |steps|
  {
    if steps != [] {
      StepIsSound(s, steps[0]);
      GoneStaysGone(s, steps[0], k);
      GoneForGood(Apply(s, steps[0]).value, steps[1..], k);
    }
  }

  lemma {:induction false} FedFrom(s: State, steps: seq<Step>, k: TurnId, r: ReaderId)
    requires Sound(s) && Active(s, k, r) && Run(s, steps).Some?
    ensures var t := Run(s, steps).value;
      Sound(t) && k < |t.turns|
      && t.turns[k].accepted == s.turns[k].accepted + Fed(steps, r) && Flags(t.turns[k], LetGo(steps, r))
    decreases |steps|
  {
    if steps != [] {
      var next := Apply(s, steps[0]).value;
      StepIsSound(s, steps[0]);
      ActiveStep(s, steps[0], k, r);
      FedStep(steps, r, s.turns[k].accepted);
      if LetsGo(steps[0], r).Some? {
        GoneForGood(next, steps[1..], k);
      } else {
        FedFrom(next, steps[1..], k, r);
      }
    }
  }

  lemma FedStep(steps: seq<Step>, r: ReaderId, accepted: seq<Event>)
    requires steps != []
    ensures LetsGo(steps[0], r).Some? ==> accepted + Fed(steps, r) == accepted + EventsOf(steps[0], r)
    ensures LetsGo(steps[0], r).None? ==>
      accepted + Fed(steps, r) == accepted + EventsOf(steps[0], r) + Fed(steps[1..], r)
  {
    if LetsGo(steps[0], r).Some? {
      AppendNothing(EventsOf(steps[0], r));
    } else {
      Regroup(accepted, EventsOf(steps[0], r), Fed(steps[1..], r));
    }
  }

  lemma AppendNothing(a: seq<Event>)
    ensures a + [] == a
  {
  }

  lemma Regroup(a: seq<Event>, b: seq<Event>, c: seq<Event>)
    ensures a + (b + c) == a + b + c
  {
  }

  lemma {:induction false} RunIsSound(s: State, steps: seq<Step>)
    requires Sound(s) && Run(s, steps).Some?
    ensures Sound(Run(s, steps).value)
    decreases |steps|
  {
    if steps != [] {
      StepIsSound(s, steps[0]);
      RunIsSound(Apply(s, steps[0]).value, steps[1..]);
    }
  }

  // ---- The theorems ----

  /** The current reader has not been stopped, and its loop still runs. */
  predicate Listening(s: State) { s.lines.Some? ==> !s.stopped && Reading(s, s.lines.value) }

  lemma HandleLineTouchesTurns(s: State, line: Line)
    requires Sound(s)
    ensures var t := HandleLine(s, line); t.lines == s.lines && t.stopped == s.stopped && t.loops == s.loops
    ensures line.Record? && line.isResult ==> HandleLine(s, line).active.None?
  {
    if line.Record? { DeliverAllTo(s, line.events); }
  }

  lemma StepKeepsListening(s: State, step: Step)
    requires Sound(s) && Listening(s) && Apply(s, step).Some?
    ensures Listening(Apply(s, step).value)
  {
    if step.LineStep? { HandleLineTouchesTurns(s, step.line); }
  }

  lemma {:induction false} RunKeepsListening(s: State, steps: seq<Step>)
    requires Sound(s) && Listening(s) && Run(s, steps).Some?
    ensures Sound(Run(s, steps).value) && Listening(Run(s, steps).value)
    decreases |steps|
  {
    if steps != [] {
      StepIsSound(s, steps[0]);
      StepKeepsListening(s, steps[0]);
      RunKeepsListening(Apply(s, steps[0]).value, steps[1..]);
    }
  }

  /**
    In every run, a turn can be created exactly when a reader is current and no turn is open;
    `stopped` never decides.
   */
  lemma CreatesIff(before: seq<Step>, s: State)
    requires Run(INIT, before) == Some(s)
    ensures |WithTurn(s).turns| == |s.turns| + 1 <==> s.active.None? && s.lines.Some?
  {
    RunKeepsListening(INIT, before);
  }

  /**
    In every run, while a reader is current its loop can still read a result line, and after any
    such line the next call creates a fresh turn.
   */
  lemma ResultMakesRoom(before: seq<Step>, s: State, r: ReaderId, es: seq<Event>)
    requires Run(INIT, before) == Some(s) && s.lines == Some(r)
    ensures var read := Apply(s, LineStep(r, Record(es, true)));
      && read.Some?
      && WithTurn(read.value) == read.value.(
           active := Some(|read.value.turns|), turns := read.value.turns + [Queue.FRESH])
      && Active(WithTurn(read.value), |read.value.turns|, r)
  {
    RunKeepsListening(INIT, before);
    HandleLineTouchesTurns(s, Record(es, true));
  }

  /**
    In every run, a turn accepts exactly the events fed to it from its creation on, and its
    terminal flags are those of the first step that let go of it.
   */
  lemma TurnIsFedExactly(before: seq<Step>, after: seq<Step>, k: TurnId, r: ReaderId)
    requires Run(INIT, before).Some?
    requires var s := Run(INIT, before).value;
      k == |s.turns| && s.lines == Some(r) && |WithTurn(s).turns| == k + 1
    requires Valid(WithTurn(Run(INIT, before).value)) && Run(WithTurn(Run(INIT, before).value), after).Some?
    ensures var t := Run(WithTurn(Run(INIT, before).value), after).value;
      k < |t.turns| && t.turns[k].accepted == Fed(after, r) && Flags(t.turns[k], LetGo(after, r))
      && Queue.Inv(t.turns[k])
  {
    RunIsSound(INIT, before);
    FedFrom(WithTurn(Run(INIT, before).value), after, k, r);
  }

  lemma DeliveredIsFed(q: Queue.State, fed: seq<Event>, how: Option<Closing>)
    requires Queue.Inv(q) && q.accepted == fed && Flags(q, how)
    ensures q.delivered <= fed
    ensures q.endings != [] ==> how.Some?
    ensures q.endings != [] && how != Some(Cancelling) ==> q.delivered == fed
  {
  }

  /**
    What the consumer of that turn has received: a prefix of what was fed, and, when its
    iteration has ended and the turn was not cancelled, all of it.
   */
  lemma ConsumerGetsWhatWasFed(before: seq<Step>, after: seq<Step>, k: TurnId, r: ReaderId)
    requires Run(INIT, before).Some?
    requires var s := Run(INIT, before).value;
      k == |s.turns| && s.lines == Some(r) && |WithTurn(s).turns| == k + 1
    requires Valid(WithTurn(Run(INIT, before).value)) && Run(WithTurn(Run(INIT, before).value), after).Some?
    ensures k < |Run(WithTurn(Run(INIT, before).value), after).value.turns|
    ensures var q := Run(WithTurn(Run(INIT, before).value), after).value.turns[k];
      q.delivered <= Fed(after, r)
      && (q.endings != [] ==> LetGo(after, r).Some?)
      && (q.endings != [] && LetGo(after, r) != Some(Cancelling) ==> q.delivered == Fed(after, r))
  {
    TurnIsFedExactly(before, after, k, r);
    DeliveredIsFed(Run(WithTurn(Run(INIT, before).value), after).value.turns[k], Fed(after, r), LetGo(after, r));
  }

  // ---- Readers ----

  /** A new reader or a stop leaves no turn open; the loops of older readers still run to their next line. */
  lemma StartingAndStopping(before: seq<Step>, s: State)
    requires Run(INIT, before) == Some(s)
    ensures Apply(s, StartStep).Some? && Apply(s, StopStep).Some?
    ensures var t, r := Apply(s, StartStep).value, |s.loops|;
      t.lines == Some(r) && t.loops == s.loops + [true] && Reading(t, r) && !t.stopped && t.active.None?
    ensures var t := Apply(s, StopStep).value;
      t.lines.None? && t.loops == s.loops && t.stopped && t.active.None?
  {
  }

  /**
    Lines and ends of a reader that is not current reach nobody; its loop ends. The end of the current
    reader's loop leaves no reader and no turn.
   */
  lemma ReaderEnds(before: seq<Step>, s: State, r: ReaderId, line: Line, f: Queue.Failure)
    requires Run(INIT, before) == Some(s) && Reading(s, r)
    ensures s.lines != Some(r) ==>
      && Apply(s, LineStep(r, line)) == Some(s.(loops := s.loops[r := false]))
      && Apply(s, EndStep(r)) == Some(s.(loops := s.loops[r := false]))
      && Apply(s, BreakStep(r, f)) == Some(s.(loops := s.loops[r := false]))
    ensures s.lines == Some(r) ==> forall step | step in {EndStep(r), BreakStep(r, f)} ::
      && Apply(s, step).Some?
      && var t := Apply(s, step).value;
         t.lines.None? && t.active.None? && t.loops == s.loops[r := false] && t.stopped == s.stopped
  {
  }
}
