/**
  The life of one job under workers, timeout scanners, lock expiry, cancellation and
  crashes, as a state machine whose steps are single statements of
  packages/job-core/src/worker-base.ts and timeout-scanner.ts.

  `claims` and `changes` are history: how often the row was claimed (which names the run
  in progress) and how often its status changed.
 */
module JobProtocol {
  import opened Options
  import opened JobStore

  type ScannerId = nat

  /** What a handler got back from its own claim. */
  datatype Claimed = Claimed(attempt: nat, maxAttempts: nat, serial: nat)

  datatype Phase =
    | Idle
    | Acquired                                   // holds the lock, row not yet claimed
    | Working(run: Claimed)                      // inside process()
    | Completing(run: Claimed)                   // renewed, about to write SUCCEEDED
    | Failing(run: Claimed, retryable: bool)     // entered handleFailure, not yet renewed
    | FailWrite(run: Claimed, retryable: bool)   // renewed, about to write FAILED
    | Requeueing                                 // wrote FAILED, about to write PENDING
    | Releasing                                  // in the finally block

  datatype ScanPhase =
    | Resting
    | ReadRow(attempt: nat, maxAttempts: nat, lockedBy: Option<WorkerId>, serial: nat)
    | ScanRequeueing(owner: Option<WorkerId>, serial: nat)
    | ScanReleasing(owner: Option<WorkerId>, serial: nat)

  datatype State = State(
    row: Row,
    lock: Option<WorkerId>,
    workers: map<WorkerId, Phase>,
    scanners: map<ScannerId, ScanPhase>,
    claims: nat,
    changes: nat)

  /** `logged` is false when the job event after the write could not be inserted. */
  datatype Step =
    | Acquire(w: WorkerId)
    | Claim(w: WorkerId, at: int, logged: bool)
    | RenewToComplete(w: WorkerId)
    | Complete(w: WorkerId, logged: bool)
    | Throw(w: WorkerId, retryable: bool)
    | RenewToFail(w: WorkerId)
    | Fail(w: WorkerId, logged: bool)
    | Requeue(w: WorkerId)
    | Release(w: WorkerId)
    | Abort(w: WorkerId)                          // an I/O error that unwinds to the finally block
    | CrashWorker(w: WorkerId)
    | ScanRead(k: ScannerId)
    | ScanFail(k: ScannerId, logged: bool)
    | ScanRequeue(k: ScannerId, logged: bool)
    | ScanRelease(k: ScannerId)
    | CrashScanner(k: ScannerId)
    | ExpireLock
    | Cancel

  function Start(maxAttempts: nat): State {
    State(Row(Pending, 0, maxAttempts, None, None, None), None, map[], map[], 0, 0)
  }

  function PhaseOf(s: State, w: WorkerId): Phase {
    if w in s.workers then s.workers[w] else Idle
  }

  function ScanPhaseOf(s: State, k: ScannerId): ScanPhase {
    if k in s.scanners then s.scanners[k] else Resting
  }

  function GoTo(s: State, w: WorkerId, p: Phase): State { s.(workers := s.workers[w := p]) }

  function ScanGoTo(s: State, k: ScannerId, p: ScanPhase): State { s.(scanners := s.scanners[k := p]) }

  /** The row after a guarded update, counting the change of status. */
  function Write(s: State, from: Status, to: Status, u: Update): Option<State> {
    var updated := Cas(s.row, from, to, u);
    if updated.Some? then Some(s.(row := updated.value, changes := s.changes + 1)) else None
  }

  function ApplyClaim(s: State, w: WorkerId, at: int, logged: bool): State {
    var written := Write(s, Pending, Running, Update(None, Hold(w, at)));
    if written.None? then GoTo(s, w, Releasing)
    else
      var run := Claimed(s.row.attempt, s.row.maxAttempts, s.claims + 1);
      GoTo(written.value.(claims := s.claims + 1), w, if logged then Working(run) else Releasing)
  }

  function ApplyComplete(s: State, w: WorkerId, run: Claimed, logged: bool): State {
    var written := Write(s, Running, Succeeded, Update(None, Clear));
    if written.None? then GoTo(s, w, Failing(run, true))
    else GoTo(written.value, w, if logged then Releasing else Failing(run, true))
  }

  function ApplyFail(s: State, w: WorkerId, run: Claimed, retryable: bool, logged: bool): State {
    var written := Write(s, Running, Failed, FailUpdate(run.attempt));
    if written.None? then GoTo(s, w, Releasing)
    else
      var again := retryable && run.attempt + 1 < run.maxAttempts;
      GoTo(written.value, w, if logged && again then Requeueing else Releasing)
  }

  function ApplyRequeue(s: State, w: WorkerId): State {
    var written := Write(s, Failed, Pending, NO_UPDATE);
    GoTo(if written.None? then s else written.value, w, Releasing)
  }

  function ApplyScanFail(s: State, k: ScannerId, logged: bool): State
    requires ScanPhaseOf(s, k).ReadRow?
  {
    var read := ScanPhaseOf(s, k);
    var written := Write(s, Running, Failed, FailUpdate(read.attempt));
    if written.None? || !logged then ScanGoTo(if written.None? then s else written.value, k, Resting)
    else ScanGoTo(written.value, k,
      if read.attempt + 1 < read.maxAttempts then ScanRequeueing(read.lockedBy, read.serial)
      else ScanReleasing(read.lockedBy, read.serial))
  }

  function ApplyScanRequeue(s: State, k: ScannerId, logged: bool): State
    requires ScanPhaseOf(s, k).ScanRequeueing?
  {
    var p := ScanPhaseOf(s, k);
    var written := Write(s, Failed, Pending, NO_UPDATE);
    if written.None? || !logged then ScanGoTo(if written.None? then s else written.value, k, Resting)
    else ScanGoTo(written.value, k, ScanReleasing(p.owner, p.serial))
  }

  /** One statement; None when the actor is not at that statement. */
  function Apply(s: State, step: Step): Option<State> {
    match step
    case Acquire(w) =>
      if !PhaseOf(s, w).Idle? then None
      else Some(GoTo(s.(lock := AcquireLock(s.lock, w)), w, if s.lock.None? then Acquired else Idle))
    case Claim(w, at, logged) =>
      if PhaseOf(s, w).Acquired? then Some(ApplyClaim(s, w, at, logged)) else None
    case RenewToComplete(w) =>
      if !PhaseOf(s, w).Working? then None
      else
        var run := PhaseOf(s, w).run;
        Some(GoTo(s, w, if s.lock == Some(w) then Completing(run) else Failing(run, true)))
    case Complete(w, logged) =>
      if PhaseOf(s, w).Completing? then Some(ApplyComplete(s, w, PhaseOf(s, w).run, logged)) else None
    case Throw(w, retryable) =>
      var p := PhaseOf(s, w);
      if p.Working? || p.Completing? then Some(GoTo(s, w, Failing(p.run, retryable))) else None
    case RenewToFail(w) =>
      var p := PhaseOf(s, w);
      if !p.Failing? then None
      else Some(GoTo(s, w, if s.lock == Some(w) then FailWrite(p.run, p.retryable) else Releasing))
    case Fail(w, logged) =>
      var p := PhaseOf(s, w);
      if p.FailWrite? then Some(ApplyFail(s, w, p.run, p.retryable, logged)) else None
    case Requeue(w) =>
      if PhaseOf(s, w).Requeueing? then Some(ApplyRequeue(s, w)) else None
    case Release(w) =>
      if PhaseOf(s, w).Releasing? then Some(GoTo(s.(lock := ReleaseLock(s.lock, w)), w, Idle)) else None
    case Abort(w) =>
      var p := PhaseOf(s, w);
      if p.Acquired? || p.Failing? || p.FailWrite? || p.Requeueing? then Some(GoTo(s, w, Releasing)) else None
    case CrashWorker(w) => Some(GoTo(s, w, Idle))
    case ScanRead(k) =>
      if ScanPhaseOf(s, k).Resting? && s.row.status == Running
      then Some(ScanGoTo(s, k, ReadRow(s.row.attempt, s.row.maxAttempts, s.row.lockedBy, s.claims)))
      else None
    case ScanFail(k, logged) =>
      if ScanPhaseOf(s, k).ReadRow? then Some(ApplyScanFail(s, k, logged)) else None
    case ScanRequeue(k, logged) =>
      if ScanPhaseOf(s, k).ScanRequeueing? then Some(ApplyScanRequeue(s, k, logged)) else None
    case ScanRelease(k) =>
      var p := ScanPhaseOf(s, k);
      if !p.ScanReleasing? then None
      else Some(ScanGoTo(if p.owner.Some? then s.(lock := ReleaseLock(s.lock, p.owner.value)) else s, k, Resting))
    case CrashScanner(k) => Some(ScanGoTo(s, k, Resting))
    case ExpireLock => Some(s.(lock := None))
    case Cancel =>
      var written := Write(s, s.row.status, Cancelled, Update(None, Clear));
      if written.Some? then written else Some(s)
  }

  /** The state after a whole run, or None when some step was not possible. */
  function Run(s: State, steps: seq<Step>): Option<State> {
    if steps == [] then Some(s)
    else
      var before := Run(s, steps[..|steps| - 1]);
      if before.None? then None else Apply(before.value, steps[|steps| - 1])
  }

  lemma RunPrefix(s: State, steps: seq<Step>, n: nat)
    requires n <= |steps| && Run(s, steps).Some?
    ensures Run(s, steps[..n]).Some?
  {
    if n < |steps| {
      var init := steps[..|steps| - 1];
      RunPrefix(s, init, n);
      assert init[..n] == steps[..n];
    } else {
      assert steps[..n] == steps;
    }
  }

  lemma Extend(s: State, steps: seq<Step>, step: Step) returns (longer: seq<Step>)
    requires Run(s, steps).Some?
    ensures longer == steps + [step] && Run(s, longer) == Apply(Run(s, steps).value, step)
  {
    longer := steps + [step];
    assert longer[..|longer| - 1] == steps;
  }

  // ---- Attempts: every statement is a step of its own ----

  datatype Actor = Worker(w: WorkerId) | Scanner(k: ScannerId)

  /** Between its RUNNING -> FAILED write and its FAILED -> PENDING write. */
  predicate Requeues(s: State, a: Actor) {
    match a
    case Worker(w) => PhaseOf(s, w).Requeueing?
    case Scanner(k) => ScanPhaseOf(s, k).ScanRequeueing?
  }

  predicate HoldsRun(p: Phase) { p.Working? || p.Completing? || p.Failing? || p.FailWrite? }

  ghost predicate RowBounds(r: Row) {
    r.attempt <= r.maxAttempts && (r.status in {Pending, Running} ==> r.attempt < r.maxAttempts)
  }

  ghost predicate HeldBounds(s: State) {
    && (forall w :: HoldsRun(PhaseOf(s, w)) ==>
          PhaseOf(s, w).run.maxAttempts == s.row.maxAttempts && PhaseOf(s, w).run.attempt < s.row.maxAttempts)
    && (forall k :: ScanPhaseOf(s, k).ReadRow? ==>
          ScanPhaseOf(s, k).maxAttempts == s.row.maxAttempts && ScanPhaseOf(s, k).attempt < s.row.maxAttempts)
  }

  ghost predicate OneRequeuer(s: State) {
    && (forall a :: Requeues(s, a) ==> s.row.status == Failed && s.row.attempt < s.row.maxAttempts)
    && (forall a, b :: Requeues(s, a) && Requeues(s, b) ==> a == b)
  }

  ghost predicate AttemptInv(s: State) { RowBounds(s.row) && HeldBounds(s) && OneRequeuer(s) }

  /** A handler or scanner holds only what it held before, or what it has just read off the row. */
  lemma HeldDataIsReadFromTheRow(s: State, step: Step)
    requires Apply(s, step).Some?
    ensures var t := Apply(s, step).value;
      && t.row.maxAttempts == s.row.maxAttempts
      && (forall w :: HoldsRun(PhaseOf(t, w)) ==>
            || (HoldsRun(PhaseOf(s, w)) && PhaseOf(t, w).run == PhaseOf(s, w).run)
            || (s.row.status == Pending
                && PhaseOf(t, w).run == Claimed(s.row.attempt, s.row.maxAttempts, s.claims + 1)))
      && (forall k :: ScanPhaseOf(t, k).ReadRow? ==>
            || ScanPhaseOf(t, k) == ScanPhaseOf(s, k)
            || (s.row.status == Running
                && ScanPhaseOf(t, k) == ReadRow(s.row.attempt, s.row.maxAttempts, s.row.lockedBy, s.claims)))
  {
  }

  lemma RowBoundsStep(s: State, step: Step)
    requires AttemptInv(s) && Apply(s, step).Some?
    ensures RowBounds(Apply(s, step).value.row)
  {
    if step.Requeue? && PhaseOf(s, step.w).Requeueing? { assert Requeues(s, Worker(step.w)); }
    if step.ScanRequeue? && ScanPhaseOf(s, step.k).ScanRequeueing? { assert Requeues(s, Scanner(step.k)); }
  }

  function ActorOf(step: Step): Actor
    requires step.Fail? || step.Requeue? || step.ScanFail? || step.ScanRequeue?
  {
    if step.Fail? || step.Requeue? then Worker(step.w) else Scanner(step.k)
  }

  lemma NewRequeuer(s: State, step: Step, a: Actor)
    requires Apply(s, step).Some? && Requeues(Apply(s, step).value, a) && !Requeues(s, a)
    ensures (step.Fail? || step.ScanFail?) && a == ActorOf(step)
    ensures s.row.status == Running && Apply(s, step).value.row.status == Failed
  {
  }

  lemma LeavingFailed(s: State, step: Step)
    requires Apply(s, step).Some? && s.row.status == Failed && Apply(s, step).value.row != s.row
    ensures (step.Requeue? || step.ScanRequeue?) && Requeues(s, ActorOf(step))
    ensures !Requeues(Apply(s, step).value, ActorOf(step))
  {
  }

  /** Whoever is about to requeue after a step was so before, or has just failed a running row. */
  lemma RequeuerStep(s: State, step: Step, a: Actor)
    requires AttemptInv(s) && Apply(s, step).Some? && Requeues(Apply(s, step).value, a)
    ensures var t := Apply(s, step).value;
      || (Requeues(s, a) && t.row == s.row)
      || (s.row.status == Running && t.row.status == Failed && t.row.attempt < t.row.maxAttempts
          && (step.Fail? || step.ScanFail?) && a == ActorOf(step))
  {
    if !Requeues(s, a) {
      NewRequeuer(s, step, a);
    } else if Apply(s, step).value.row != s.row {
      LeavingFailed(s, step);
    }
  }

  lemma OneRequeuerStep(s: State, step: Step)
    requires AttemptInv(s) && Apply(s, step).Some?
    ensures OneRequeuer(Apply(s, step).value)
  {
    forall a | Requeues(Apply(s, step).value, a)
      ensures var t := Apply(s, step).value;
        || (Requeues(s, a) && t.row == s.row)
        || (s.row.status == Running && t.row.status == Failed && t.row.attempt < t.row.maxAttempts
            && (step.Fail? || step.ScanFail?) && a == ActorOf(step))
    {
      RequeuerStep(s, step, a);
    }
  }

  lemma AttemptInvStep(s: State, step: Step)
    requires AttemptInv(s) && Apply(s, step).Some?
    ensures AttemptInv(Apply(s, step).value)
    ensures Apply(s, step).value.row.maxAttempts == s.row.maxAttempts
  {
    HeldDataIsReadFromTheRow(s, step);
    RowBoundsStep(s, step);
    OneRequeuerStep(s, step);
  }

  /** In every reachable state the attempts stay within bounds and at most one actor is about to requeue. */
  lemma {:induction false} AttemptsStayBounded(maxAttempts: nat, steps: seq<Step>)
    requires 0 < maxAttempts && Run(Start(maxAttempts), steps).Some?
    ensures var s := Run(Start(maxAttempts), steps).value;
      && s.row.maxAttempts == maxAttempts
      && s.row.attempt <= maxAttempts
      && (s.row.status in {Pending, Running} ==> s.row.attempt < maxAttempts)
      && (forall a, b :: Requeues(s, a) && Requeues(s, b) ==> a == b)
    ensures AttemptInv(Run(Start(maxAttempts), steps).value)
  {
    if steps != [] {
      var init := steps[..|steps| - 1];
      AttemptsStayBounded(maxAttempts, init);
      AttemptInvStep(Run(Start(maxAttempts), init).value, steps[|steps| - 1]);
    }
  }

  /** No actor will write the row again: it succeeded, was cancelled, or failed with nobody left to requeue it. */
  ghost predicate Settled(s: State) {
    || s.row.status in {Succeeded, Cancelled}
    || (s.row.status == Failed && forall a :: !Requeues(s, a))
  }

  lemma SettledStep(s: State, step: Step)
    requires Settled(s) && Apply(s, step).Some?
    ensures Apply(s, step).value.row == s.row && Settled(Apply(s, step).value)
  {
    if s.row.status == Failed {
      if Apply(s, step).value.row != s.row { LeavingFailed(s, step); }
      forall a ensures !Requeues(Apply(s, step).value, a) {
        if Requeues(Apply(s, step).value, a) { NewRequeuer(s, step, a); }
      }
    }
  }

  /** Once settled, a job's row never changes again, whatever the actors do. */
  lemma {:induction false} SettledIsAbsorbing(s: State, steps: seq<Step>)
    requires Settled(s) && Run(s, steps).Some?
    ensures Run(s, steps).value.row == s.row && Settled(Run(s, steps).value)
  {
    if steps != [] {
      var init := steps[..|steps| - 1];
      SettledIsAbsorbing(s, init);
      SettledStep(Run(s, init).value, steps[|steps| - 1]);
    }
  }
}
