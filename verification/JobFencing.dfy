/**
  Fencing and the bound on status changes, over every run of single statements.

  A handler's write checks only the row's status, so it can land on a run of another worker,
  and a FAILED write can count an attempt of an older run. The theorems say exactly when:
  the first happens unless the row's recorded owner is the writer, the second unless the row's
  attempt count is the one the writer read. Runs in which a lock operation stays together with
  the write that follows it (and a scanner's read with its write) meet both conditions.
 */
module JobFencing {
  import opened Options
  import opened JobStore
  import opened JobProtocol

  // ---- Fencing: every statement is a step of its own ----

  /** The row is in the very run this handler claimed. */
  predicate OwnRun(s: State, w: WorkerId, run: Claimed) {
    s.row.status == Running && s.row.lockedBy == Some(w) && s.row.attempt == run.attempt && s.claims == run.serial
  }

  /** Nobody holds a run of the future, and a recorded owner that holds a run holds the current one. */
  ghost predicate OwnersHoldTheRun(s: State) {
    && (forall w :: HoldsRun(PhaseOf(s, w)) ==> PhaseOf(s, w).run.serial <= s.claims)
    && (forall w :: HoldsRun(PhaseOf(s, w)) && s.row.status == Running && s.row.lockedBy == Some(w) ==>
          OwnRun(s, w, PhaseOf(s, w).run))
  }

  lemma OwnersHoldTheRunStep(s: State, step: Step)
    requires OwnersHoldTheRun(s) && Apply(s, step).Some?
    ensures OwnersHoldTheRun(Apply(s, step).value)
  {
    var t := Apply(s, step).value;
    forall w | HoldsRun(PhaseOf(t, w))
      ensures PhaseOf(t, w).run.serial <= t.claims
      ensures t.row.status == Running && t.row.lockedBy == Some(w) ==> OwnRun(t, w, PhaseOf(t, w).run)
    {
      HeldSerialStep(s, step, w);
      OwnerStep(s, step, w);
    }
  }

  lemma HeldSerialStep(s: State, step: Step, w: WorkerId)
    requires OwnersHoldTheRun(s) && Apply(s, step).Some? && HoldsRun(PhaseOf(Apply(s, step).value, w))
    ensures var t := Apply(s, step).value; PhaseOf(t, w).run.serial <= t.claims
  {
    assert HoldsRun(PhaseOf(s, w)) ==> PhaseOf(s, w).run.serial <= s.claims;
  }

  lemma OwnerStep(s: State, step: Step, w: WorkerId)
    requires OwnersHoldTheRun(s) && Apply(s, step).Some? && HoldsRun(PhaseOf(Apply(s, step).value, w))
    ensures var t := Apply(s, step).value;
      t.row.status == Running && t.row.lockedBy == Some(w) ==> OwnRun(t, w, PhaseOf(t, w).run)
  {
  }

  lemma {:induction false} OwnersHoldTheRunAlways(maxAttempts: nat, steps: seq<Step>)
    requires Run(Start(maxAttempts), steps).Some?
    ensures OwnersHoldTheRun(Run(Start(maxAttempts), steps).value)
  {
    if steps != [] {
      var init := steps[..|steps| - 1];
      OwnersHoldTheRunAlways(maxAttempts, init);
      OwnersHoldTheRunStep(Run(Start(maxAttempts), init).value, steps[|steps| - 1]);
    }
  }

  /** A handler's SUCCEEDED or FAILED write takes effect. */
  predicate HandlerWrites(s: State, step: Step) {
    (step.Complete? || step.Fail?) && Apply(s, step).Some? && Apply(s, step).value.row != s.row
  }

  /**
    In every run, a handler's SUCCEEDED or FAILED write that takes effect lands on the run that
    handler claimed if and only if the row still records it as the owner.
   */
  lemma WritesLandOnTheOwnRunIff(maxAttempts: nat, steps: seq<Step>, step: Step)
    requires Run(Start(maxAttempts), steps).Some? && HandlerWrites(Run(Start(maxAttempts), steps).value, step)
    ensures var s := Run(Start(maxAttempts), steps).value;
      OwnRun(s, step.w, PhaseOf(s, step.w).run) <==> s.row.lockedBy == Some(step.w)
  {
    OwnersHoldTheRunAlways(maxAttempts, steps);
  }

  // ---- Pairing ----

  function Mover(step: Step): Option<Actor> {
    match step
    case ExpireLock => None
    case Cancel => None
    case ScanRead(k) => Some(Scanner(k))
    case ScanFail(k, _) => Some(Scanner(k))
    case ScanRequeue(k, _) => Some(Scanner(k))
    case ScanRelease(k) => Some(Scanner(k))
    case CrashScanner(k) => Some(Scanner(k))
    case _ => Some(Worker(step.w))
  }

  /** Between a lock operation and its write; for scanners, between the read and the write. */
  predicate InPair(s: State, a: Actor, scannersToo: bool) {
    match a
    case Worker(w) => var p := PhaseOf(s, w); p.Acquired? || p.Completing? || p.FailWrite?
    case Scanner(k) => scannersToo && ScanPhaseOf(s, k).ReadRow?
  }

  ghost predicate KeepsPairs(s: State, step: Step, scannersToo: bool) {
    forall a :: InPair(s, a, scannersToo) ==> Mover(step) == Some(a)
  }

  /** A possible run in which no pair is interrupted. */
  ghost predicate PairedRun(s: State, steps: seq<Step>, scannersToo: bool) {
    && Run(s, steps).Some?
    && (steps != [] ==>
          var init := steps[..|steps| - 1];
          PairedRun(s, init, scannersToo) && KeepsPairs(Run(s, init).value, steps[|steps| - 1], scannersToo))
  }

  /**
    Whoever is between a lock operation and its write holds the lock; a lock holder with a run
    owns the running row.
   */
  ghost predicate FenceInv(s: State) {
    && (forall w :: InPair(s, Worker(w), false) ==> s.lock == Some(w))
    && (forall w :: HoldsRun(PhaseOf(s, w)) && s.lock == Some(w) && s.row.status == Running ==>
          s.row.lockedBy == Some(w))
  }

  lemma FenceInvStep(s: State, step: Step)
    requires FenceInv(s) && KeepsPairs(s, step, false) && Apply(s, step).Some?
    ensures FenceInv(Apply(s, step).value)
  {
    var t := Apply(s, step).value;
    forall w | InPair(t, Worker(w), false) ensures t.lock == Some(w) {
      assert InPair(s, Worker(w), false) ==> Mover(step) == Some(Worker(w));
    }
    forall w | HoldsRun(PhaseOf(t, w)) && t.lock == Some(w) && t.row.status == Running
      ensures t.row.lockedBy == Some(w)
    {
      LockHolderStep(s, step, w);
    }
  }

  lemma LockHolderStep(s: State, step: Step, w: WorkerId)
    requires FenceInv(s) && KeepsPairs(s, step, false) && Apply(s, step).Some?
    requires var t := Apply(s, step).value;
      HoldsRun(PhaseOf(t, w)) && t.lock == Some(w) && t.row.status == Running
    ensures Apply(s, step).value.row.lockedBy == Some(w)
  {
    if step.Claim? && step.w != w {
      assert InPair(s, Worker(step.w), false);
    }
  }

  lemma {:induction false} FenceInvHolds(maxAttempts: nat, steps: seq<Step>)
    requires PairedRun(Start(maxAttempts), steps, false)
    ensures FenceInv(Run(Start(maxAttempts), steps).value)
  {
    if steps != [] {
      var init := steps[..|steps| - 1];
      FenceInvHolds(maxAttempts, init);
      FenceInvStep(Run(Start(maxAttempts), init).value, steps[|steps| - 1]);
    }
  }

  /** So when lock operations stay together with their writes, every write lands on the writer's own run. */
  lemma PairedWritesLandOnTheOwnRun(maxAttempts: nat, steps: seq<Step>, step: Step)
    requires PairedRun(Start(maxAttempts), steps, false) && HandlerWrites(Run(Start(maxAttempts), steps).value, step)
    ensures var s := Run(Start(maxAttempts), steps).value; OwnRun(s, step.w, PhaseOf(s, step.w).run)
  {
    FenceInvHolds(maxAttempts, steps);
    WritesLandOnTheOwnRunIff(maxAttempts, steps, step);
    assert InPair(Run(Start(maxAttempts), steps).value, Worker(step.w), false);
  }

  // ---- Locks: every statement is a step of its own ----

  ghost predicate ScannedRunsAreOver(s: State) {
    forall k :: var p := ScanPhaseOf(s, k);
      && (p.ReadRow? ==> p.serial <= s.claims)
      && (p.ScanRequeueing? || p.ScanReleasing? ==>
            p.serial <= s.claims && (s.row.status == Running ==> p.serial < s.claims))
  }

  lemma {:induction false} ScannedRunsStayOver(maxAttempts: nat, steps: seq<Step>)
    requires Run(Start(maxAttempts), steps).Some?
    ensures ScannedRunsAreOver(Run(Start(maxAttempts), steps).value)
  {
    if steps != [] {
      var init := steps[..|steps| - 1];
      ScannedRunsStayOver(maxAttempts, init);
      ScannedRunsStep(Run(Start(maxAttempts), init).value, steps[|steps| - 1]);
    }
  }

  lemma ScannedRunsStep(s: State, step: Step)
    requires ScannedRunsAreOver(s) && Apply(s, step).Some?
    ensures ScannedRunsAreOver(Apply(s, step).value)
  {
    var t := Apply(s, step).value;
    forall k ensures var p := ScanPhaseOf(t, k);
        && (p.ReadRow? ==> p.serial <= t.claims)
        && (p.ScanRequeueing? || p.ScanReleasing? ==>
              p.serial <= t.claims && (t.row.status == Running ==> p.serial < t.claims))
    {
      assert ScanPhaseOf(s, k) == ScanPhaseOf(s, k);
    }
  }

  /**
    How the lock can change hands in any reachable state: it is taken when free, it expires,
    its holder releases it, or a scanner releases it for the worker recorded on the row it
    timed out, whose run at that time is over.
   */
  lemma NoReleaseTakesAnothersLock(maxAttempts: nat, steps: seq<Step>, step: Step)
    requires Run(Start(maxAttempts), steps).Some?
    requires var s := Run(Start(maxAttempts), steps).value;
      Apply(s, step).Some? && Apply(s, step).value.lock != s.lock
    ensures var s := Run(Start(maxAttempts), steps).value;
      var t := Apply(s, step).value;
      match step
      case Acquire(w) => s.lock == None && t.lock == Some(w) && PhaseOf(t, w) == Acquired
      case ExpireLock => t.lock == None
      case Release(w) => s.lock == Some(w) && t.lock == None
      case ScanRelease(k) =>
        && t.lock == None
        && s.lock == ScanPhaseOf(s, k).owner
        && (s.row.status == Running ==> ScanPhaseOf(s, k).serial < s.claims)
      case _ => false
  {
    ScannedRunsStayOver(maxAttempts, steps);
    var s := Run(Start(maxAttempts), steps).value;
    if step.ScanRelease? {
      assert ScanPhaseOf(s, step.k).ScanReleasing?;
    }
  }

  /** The worker whose claim this step is, if it takes effect. */
  function ClaimedBy(s: State, step: Step): seq<WorkerId> {
    if step.Claim? && PhaseOf(s, step.w).Acquired? && s.row.status == Pending then [step.w] else []
  }

  /** The workers that claimed the job, in order; the n-th of them has the run with serial n. */
  function Claimers(s: State, steps: seq<Step>): seq<WorkerId> {
    if steps == [] then []
    else
      var init := steps[..|steps| - 1];
      var before := Run(s, init);
      Claimers(s, init) + if before.Some? then ClaimedBy(before.value, steps[|steps| - 1]) else []
  }

  predicate IsClaimer(claimers: seq<WorkerId>, serial: nat, owner: Option<WorkerId>) {
    0 < serial <= |claimers| && owner == Some(claimers[serial - 1])
  }

  predicate ScanNamesTheClaimer(claimers: seq<WorkerId>, p: ScanPhase) {
    && (p.ReadRow? ==> IsClaimer(claimers, p.serial, p.lockedBy))
    && (p.ScanRequeueing? || p.ScanReleasing? ==> IsClaimer(claimers, p.serial, p.owner))
  }

  /** A running row, and whoever read it, names the claimer of the run. */
  ghost predicate OwnersAreClaimers(s: State, claimers: seq<WorkerId>) {
    && |claimers| == s.claims
    && (s.row.status == Running ==> IsClaimer(claimers, s.claims, s.row.lockedBy))
    && (forall k :: ScanNamesTheClaimer(claimers, ScanPhaseOf(s, k)))
  }

  lemma OwnersAreClaimersStep(s: State, claimers: seq<WorkerId>, step: Step)
    requires OwnersAreClaimers(s, claimers) && Apply(s, step).Some?
    ensures OwnersAreClaimers(Apply(s, step).value, claimers + ClaimedBy(s, step))
  {
    var t := Apply(s, step).value;
    forall k ensures ScanNamesTheClaimer(claimers + ClaimedBy(s, step), ScanPhaseOf(t, k)) {
      assert ScanNamesTheClaimer(claimers, ScanPhaseOf(s, k));
    }
  }

  lemma {:induction false} OwnersAreClaimersAlways(maxAttempts: nat, steps: seq<Step>)
    requires Run(Start(maxAttempts), steps).Some?
    ensures OwnersAreClaimers(Run(Start(maxAttempts), steps).value, Claimers(Start(maxAttempts), steps))
  {
    if steps != [] {
      var init := steps[..|steps| - 1];
      OwnersAreClaimersAlways(maxAttempts, init);
      var claimers := Claimers(Start(maxAttempts), init);
      OwnersAreClaimersStep(Run(Start(maxAttempts), init).value, claimers, steps[|steps| - 1]);
    }
  }

  /** The worker id that claimed the latest run also claimed the run with this serial. */
  predicate SameClaimer(s: State, claimers: seq<WorkerId>, serial: nat) {
    0 < serial <= s.claims <= |claimers| && claimers[s.claims - 1] == claimers[serial - 1]
  }

  lemma ScannedOwnerIff(s: State, claimers: seq<WorkerId>, k: ScannerId)
    requires OwnersAreClaimers(s, claimers) && ScanPhaseOf(s, k).ScanReleasing? && s.row.status == Running
    ensures s.row.lockedBy == ScanPhaseOf(s, k).owner <==> SameClaimer(s, claimers, ScanPhaseOf(s, k).serial)
  {
    assert ScanNamesTheClaimer(claimers, ScanPhaseOf(s, k));
  }

  /**
    In every run, the lock a scanner deletes guards a run in progress if and only if that run was
    claimed under the same worker id as the run the scanner ended, which is an earlier one.
   */
  lemma ScannersFreeARunningJobIff(maxAttempts: nat, steps: seq<Step>, k: ScannerId, s: State)
    requires Run(Start(maxAttempts), steps) == Some(s)
    requires Apply(s, ScanRelease(k)).Some? && Apply(s, ScanRelease(k)).value.lock != s.lock
    ensures ScanPhaseOf(s, k).ScanReleasing? && |Claimers(Start(maxAttempts), steps)| == s.claims
    ensures s.row.status == Running ==> 0 < ScanPhaseOf(s, k).serial < s.claims
    ensures s.row.status == Running && s.row.lockedBy == s.lock <==>
      s.row.status == Running && SameClaimer(s, Claimers(Start(maxAttempts), steps), ScanPhaseOf(s, k).serial)
  {
    NoReleaseTakesAnothersLock(maxAttempts, steps, ScanRelease(k));
    OwnersAreClaimersAlways(maxAttempts, steps);
    if s.row.status == Running {
      ScannedOwnerIff(s, Claimers(Start(maxAttempts), steps), k);
    }
    assert ScanNamesTheClaimer(Claimers(Start(maxAttempts), steps), ScanPhaseOf(s, k));
  }

  predicate AllDifferent(claimers: seq<WorkerId>) {
    forall i, j | 0 <= i < j < |claimers| :: claimers[i] != claimers[j]
  }

  /** So when no worker id claims the job twice, the lock a scanner deletes guards no run in progress. */
  lemma ScannersFreeNoRunningJob(maxAttempts: nat, steps: seq<Step>, k: ScannerId)
    requires Run(Start(maxAttempts), steps).Some? && AllDifferent(Claimers(Start(maxAttempts), steps))
    requires var s := Run(Start(maxAttempts), steps).value;
      Apply(s, ScanRelease(k)).Some? && Apply(s, ScanRelease(k)).value.lock != s.lock
    ensures var s := Run(Start(maxAttempts), steps).value; !(s.row.status == Running && s.row.lockedBy == s.lock)
  {
    ScannersFreeARunningJobIff(maxAttempts, steps, k, Run(Start(maxAttempts), steps).value);
  }

  // ---- How often the status can change: every statement is a step of its own ----

  /** A FAILED write of a handler or a scanner takes effect. */
  predicate FailsTheRow(s: State, step: Step) {
    && s.row.status == Running
    && ((step.Fail? && PhaseOf(s, step.w).FailWrite?) || (step.ScanFail? && ScanPhaseOf(s, step.k).ReadRow?))
  }

  function HeldSerial(s: State, step: Step): nat
    requires FailsTheRow(s, step)
  {
    if step.Fail? then PhaseOf(s, step.w).run.serial else ScanPhaseOf(s, step.k).serial
  }

  /** The attempt count the writer read when it claimed or scanned the row. */
  function HeldAttempt(s: State, step: Step): nat
    requires FailsTheRow(s, step)
  {
    if step.Fail? then PhaseOf(s, step.w).run.attempt else ScanPhaseOf(s, step.k).attempt
  }

  /** A FAILED write that takes effect finds the run it was read from. */
  predicate FailsItsOwnRun(s: State, step: Step) { FailsTheRow(s, step) ==> HeldSerial(s, step) == s.claims }

  /** A FAILED write that takes effect finds the attempt count it was read with: a guard on the row alone. */
  predicate FindsItsCount(s: State, step: Step) { FailsTheRow(s, step) ==> s.row.attempt == HeldAttempt(s, step) }

  /** A possible run in which no FAILED write is stale. */
  ghost predicate FreshRun(s: State, steps: seq<Step>) {
    && Run(s, steps).Some?
    && (steps != [] ==>
          var init := steps[..|steps| - 1];
          FreshRun(s, init) && FailsItsOwnRun(Run(s, init).value, steps[|steps| - 1]))
  }

  predicate ChangesMatchAttempts(s: State) {
    match s.row.status
    case Pending => s.changes == 3 * s.row.attempt
    case Running => s.changes == 3 * s.row.attempt + 1
    case Failed => s.changes == 3 * s.row.attempt - 1
    case Succeeded => s.changes == 3 * s.row.attempt + 2 && s.row.attempt < s.row.maxAttempts
    case Cancelled => s.changes <= 3 * s.row.attempt + 2 && s.row.attempt < s.row.maxAttempts
  }

  /** Each claim but the current one has become an attempt. */
  predicate ClaimsMatchAttempts(s: State) {
    && (s.row.status == Pending || s.row.status == Failed ==> s.claims == s.row.attempt)
    && (s.row.status == Running ==> s.claims == s.row.attempt + 1)
  }

  ghost predicate HeldMatch(s: State) {
    && (forall w :: HoldsRun(PhaseOf(s, w)) ==> PhaseOf(s, w).run.serial == PhaseOf(s, w).run.attempt + 1)
    && (forall k :: ScanPhaseOf(s, k).ReadRow? ==> ScanPhaseOf(s, k).serial == ScanPhaseOf(s, k).attempt + 1)
  }

  ghost predicate CountInv(s: State) {
    AttemptInv(s) && ChangesMatchAttempts(s) && ClaimsMatchAttempts(s) && HeldMatch(s)
  }

  lemma HeldMatchStep(s: State, step: Step)
    requires ClaimsMatchAttempts(s) && HeldMatch(s) && Apply(s, step).Some?
    ensures HeldMatch(Apply(s, step).value)
  {
    HeldDataIsReadFromTheRow(s, step);
  }

  lemma ClaimsMatchStep(s: State, step: Step)
    requires ClaimsMatchAttempts(s) && HeldMatch(s) && FailsItsOwnRun(s, step) && Apply(s, step).Some?
    ensures ClaimsMatchAttempts(Apply(s, step).value)
  {
  }

  /** A step keeps the count of changes if and only if it is no stale FAILED write. */
  lemma ChangesStepIff(s: State, step: Step)
    requires CountInv(s) && Apply(s, step).Some?
    ensures ChangesMatchAttempts(Apply(s, step).value) <==> FailsItsOwnRun(s, step)
    ensures FailsItsOwnRun(s, step) <==> FindsItsCount(s, step)
  {
    if FailsTheRow(s, step) { StaleStepIff(s, step); } else { OtherStepKeepsCount(s, step); }
  }

  lemma StaleStepIff(s: State, step: Step)
    requires CountInv(s) && Apply(s, step).Some? && FailsTheRow(s, step)
    ensures ChangesMatchAttempts(Apply(s, step).value) <==> FailsItsOwnRun(s, step)
    ensures FailsItsOwnRun(s, step) <==> FindsItsCount(s, step)
  {
  }

  lemma OtherStepKeepsCount(s: State, step: Step)
    requires CountInv(s) && Apply(s, step).Some? && !FailsTheRow(s, step)
    ensures ChangesMatchAttempts(Apply(s, step).value) && FailsItsOwnRun(s, step) && FindsItsCount(s, step)
  {
  }

  lemma {:induction false} CountInvHolds(maxAttempts: nat, steps: seq<Step>)
    requires 0 < maxAttempts && FreshRun(Start(maxAttempts), steps)
    ensures CountInv(Run(Start(maxAttempts), steps).value)
  {
    AttemptsStayBounded(maxAttempts, steps);
    if steps != [] {
      var init := steps[..|steps| - 1];
      CountInvHolds(maxAttempts, init);
      var s, step := Run(Start(maxAttempts), init).value, steps[|steps| - 1];
      HeldMatchStep(s, step);
      ClaimsMatchStep(s, step);
      ChangesStepIff(s, step);
    }
  }

  /** In every run whose FAILED writes are not stale, a fresh job changes status at most 3 * max_attempts - 1 times. */
  lemma StatusChangesAreBounded(maxAttempts: nat, steps: seq<Step>)
    requires 0 < maxAttempts && FreshRun(Start(maxAttempts), steps)
    ensures Run(Start(maxAttempts), steps).value.changes <= 3 * maxAttempts - 1
  {
    CountInvHolds(maxAttempts, steps);
    AttemptsStayBounded(maxAttempts, steps);
  }

  /**
    After any such run, the next step keeps three changes to an attempt if and only if it is no
    stale FAILED write, which is to say: if and only if a FAILED write finds the attempt count it read.
   */
  lemma CountIsKeptIff(maxAttempts: nat, steps: seq<Step>, step: Step)
    requires 0 < maxAttempts && FreshRun(Start(maxAttempts), steps)
    requires Apply(Run(Start(maxAttempts), steps).value, step).Some?
    ensures var s := Run(Start(maxAttempts), steps).value;
      && (ChangesMatchAttempts(Apply(s, step).value) <==> FindsItsCount(s, step))
      && (FailsItsOwnRun(s, step) <==> FindsItsCount(s, step))
  {
    CountInvHolds(maxAttempts, steps);
    ChangesStepIff(Run(Start(maxAttempts), steps).value, step);
  }

  ghost predicate ReadsAreFresh(s: State) {
    forall k :: ScanPhaseOf(s, k).ReadRow? ==> s.row.status == Running && ScanPhaseOf(s, k).serial == s.claims
  }

  lemma ReadsAreFreshStep(s: State, step: Step)
    requires ReadsAreFresh(s) && KeepsPairs(s, step, true) && Apply(s, step).Some?
    ensures ReadsAreFresh(Apply(s, step).value)
  {
    forall k | ScanPhaseOf(Apply(s, step).value, k).ReadRow?
      ensures var t := Apply(s, step).value;
        t.row.status == Running && ScanPhaseOf(t, k).serial == t.claims
    {
      assert InPair(s, Scanner(k), true) ==> Mover(step) == Some(Scanner(k));
    }
  }

  lemma PairsOfWorkersOnly(s: State, step: Step)
    requires KeepsPairs(s, step, true)
    ensures KeepsPairs(s, step, false)
  {
    forall a | InPair(s, a, false) ensures Mover(step) == Some(a) {
      assert InPair(s, a, true);
    }
  }

  /** Pairs that are not interrupted leave no stale FAILED write. */
  lemma {:induction false} PairedRunsAreFresh(maxAttempts: nat, steps: seq<Step>)
    requires PairedRun(Start(maxAttempts), steps, true)
    ensures FreshRun(Start(maxAttempts), steps) && PairedRun(Start(maxAttempts), steps, false)
    ensures ReadsAreFresh(Run(Start(maxAttempts), steps).value)
  {
    if steps != [] {
      var init, step := steps[..|steps| - 1], steps[|steps| - 1];
      PairedRunsAreFresh(maxAttempts, init);
      var s := Run(Start(maxAttempts), init).value;
      ReadsAreFreshStep(s, step);
      PairsOfWorkersOnly(s, step);
      PairedFailsAreFresh(maxAttempts, init, step);
    }
  }

  lemma PairedFailsAreFresh(maxAttempts: nat, steps: seq<Step>, step: Step)
    requires PairedRun(Start(maxAttempts), steps, false) && ReadsAreFresh(Run(Start(maxAttempts), steps).value)
    requires Apply(Run(Start(maxAttempts), steps).value, step).Some?
    ensures FailsItsOwnRun(Run(Start(maxAttempts), steps).value, step)
  {
    if step.Fail? && FailsTheRow(Run(Start(maxAttempts), steps).value, step) {
      PairedWritesLandOnTheOwnRun(maxAttempts, steps, step);
    }
  }

  // ---- Runs in which the conditions fail ----

  /** Claims the job for w from a state in which it is pending and unlocked. */
  lemma ExtendByClaim(s: State, steps: seq<Step>, w: WorkerId) returns (longer: seq<Step>)
    requires Run(s, steps).Some?
    requires var t := Run(s, steps).value; t.row.status == Pending && t.lock == None && PhaseOf(t, w) == Idle
    ensures Run(s, longer) == Some(
      var t := Run(s, steps).value;
      var run := Claimed(t.row.attempt, t.row.maxAttempts, t.claims + 1);
      t.(row := t.row.(status := Running, lockedBy := Some(w), lockedAt := Some(0)), lock := Some(w),
         workers := t.workers[w := Working(run)], claims := t.claims + 1, changes := t.changes + 1))
  {
    var acquired := Extend(s, steps, Acquire(w));
    longer := Extend(s, acquired, Claim(w, 0, true));
    var t := Run(s, steps).value;
    var run := Claimed(t.row.attempt, t.row.maxAttempts, t.claims + 1);
    assert t.workers[w := Acquired][w := Working(run)] == t.workers[w := Working(run)];
  }

  /** Scanner k, which has read the row, fails it and queues it again. */
  lemma ExtendByTimeout(s: State, steps: seq<Step>, k: ScannerId) returns (longer: seq<Step>)
    requires Run(s, steps).Some?
    requires var t := Run(s, steps).value;
      t.row.status == Running && ScanPhaseOf(t, k).ReadRow?
      && ScanPhaseOf(t, k).attempt + 1 < ScanPhaseOf(t, k).maxAttempts
    ensures Run(s, longer) == Some(
      var t := Run(s, steps).value;
      var read := ScanPhaseOf(t, k);
      t.(row := t.row.(status := Pending, attempt := read.attempt + 1, lockedBy := None, lockedAt := None),
         scanners := t.scanners[k := ScanReleasing(read.lockedBy, read.serial)], changes := t.changes + 2))
  {
    var failed := Extend(s, steps, ScanFail(k, true));
    longer := Extend(s, failed, ScanRequeue(k, true));
    var t := Run(s, steps).value;
    var read := ScanPhaseOf(t, k);
    assert t.scanners[k := ScanRequeueing(read.lockedBy, read.serial)][k := ScanReleasing(read.lockedBy, read.serial)]
      == t.scanners[k := ScanReleasing(read.lockedBy, read.serial)];
  }

  /** Worker "a" claims the job and renews its lock, and the lock expires. */
  lemma AfterARenewal(maxAttempts: nat) returns (steps: seq<Step>)
    requires 2 <= maxAttempts
    ensures Run(Start(maxAttempts), steps).Some?
    ensures var s := Run(Start(maxAttempts), steps).value;
      && s.row == Row(Running, 0, maxAttempts, Some("a"), Some(0), None)
      && s.lock == None && s.changes == 1 && s.claims == 1
      && PhaseOf(s, "a").Completing? && PhaseOf(s, "b").Idle?
      && ScanPhaseOf(s, 0) == Resting && ScanPhaseOf(s, 1) == Resting
  {
    steps := ExtendByClaim(Start(maxAttempts), [], "a");
    steps := Extend(Start(maxAttempts), steps, RenewToComplete("a"));
    steps := Extend(Start(maxAttempts), steps, ExpireLock);
  }

  /** Then two scanners read the row before the first of them times the run out. */
  lemma AfterAnInterruptedPair(maxAttempts: nat) returns (steps: seq<Step>)
    requires 2 <= maxAttempts
    ensures Run(Start(maxAttempts), steps).Some?
    ensures var s := Run(Start(maxAttempts), steps).value;
      && s.row == Row(Pending, 1, maxAttempts, None, None, None) && s.lock == None && s.changes == 3
      && PhaseOf(s, "a").Completing? && PhaseOf(s, "b").Idle?
      && ScanPhaseOf(s, 0) == ScanReleasing(Some("a"), 1) && ScanPhaseOf(s, 1) == ReadRow(0, maxAttempts, Some("a"), 1)
  {
    steps := AfterARenewal(maxAttempts);
    steps := Extend(Start(maxAttempts), steps, ScanRead(0));
    steps := Extend(Start(maxAttempts), steps, ScanRead(1));
    steps := ExtendByTimeout(Start(maxAttempts), steps, 0);
  }

  /**
    When the lock may expire and the row be requeued between a handler's renewal and its
    SUCCEEDED write, the write can complete the run of another worker.
   */
  lemma UnpairedCompletionCanHitAnotherRun(maxAttempts: nat) returns (steps: seq<Step>, step: Step)
    requires 2 <= maxAttempts
    ensures step.Complete? && Run(Start(maxAttempts), steps).Some?
    ensures var s := Run(Start(maxAttempts), steps).value;
      && Apply(s, step).Some? && Apply(s, step).value.row.status == Succeeded
      && s.row.status == Running && s.row.lockedBy.Some? && s.row.lockedBy != Some(step.w)
  {
    steps := AfterAnInterruptedPair(maxAttempts);
    steps := ExtendByClaim(Start(maxAttempts), steps, "b");
    step := Complete("a", true);
  }

  /** When two scanners may act on one stale read, the bound on status changes fails. */
  lemma StaleReadsCanExceedTheBound() returns (steps: seq<Step>)
    ensures Run(Start(2), steps).Some? && Run(Start(2), steps).value.changes > 3 * 2 - 1
  {
    steps := AfterAnInterruptedPair(2);
    steps := ExtendByClaim(Start(2), steps, "b");
    steps := ExtendByTimeout(Start(2), steps, 1);
  }

  /** When a worker id is used again, a scanner can delete the lock that guards its new run. */
  lemma ReusedIdLosesItsLock() returns (steps: seq<Step>)
    ensures Run(Start(2), steps).Some?
    ensures var s := Run(Start(2), steps).value;
      && s.row.status == Running && s.row.lockedBy == Some("a") && s.lock == Some("a")
      && PhaseOf(s, "a").Working? && PhaseOf(s, "a").run.serial == s.claims
      && Apply(s, ScanRelease(0)).Some? && Apply(s, ScanRelease(0)).value.lock == None
  {
    steps := AfterAnInterruptedPair(2);
    steps := Extend(Start(2), steps, CrashWorker("a"));
    steps := ExtendByClaim(Start(2), steps, "a");
  }
}
