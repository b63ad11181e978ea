/**
  Where the steps of one actor lead when nobody comes between them: the protocol of
  JobProtocol ends in the rows and locks that the class of JobStore computes.
 */
module UndisturbedJobs {
  import opened Options
  import opened JobStore
  import opened JobProtocol

  lemma {:induction false} Then(s: State, steps: seq<Step>, t: State, step: Step)
    requires Run(s, steps) == Some(t)
    ensures Run(s, steps + [step]) == Apply(t, step)
  {
    assert (steps + [step])[..|steps|] == steps;
  }

  // ---- The handler ----

  /** What the steps of worker `w` leave alone. */
  predicate OnlyWorker(s: State, t: State, w: WorkerId) {
    t.scanners == s.scanners && t.workers == s.workers[w := PhaseOf(t, w)]
  }

  lemma StillOnlyWorker(s: State, t: State, u: State, w: WorkerId)
    requires OnlyWorker(s, t, w) && OnlyWorker(t, u, w)
    ensures OnlyWorker(s, u, w)
  {
  }

  /** The row of a run that worker `w` claimed at `at`. */
  function ClaimedRow(row: Row, w: WorkerId, at: int): Row {
    row.(status := Running, lockedBy := Some(w), lockedAt := Some(at))
  }

  function FailedRow(row: Row): Row {
    row.(status := Failed, attempt := row.attempt + 1, lockedBy := None, lockedAt := None)
  }

  function Claiming(w: WorkerId, at: int): seq<Step> { [] + [Acquire(w)] + [Claim(w, at, true)] }

  function Completing(w: WorkerId, at: int): seq<Step> {
    Claiming(w, at) + [RenewToComplete(w)] + [Complete(w, true)]
  }

  function FailingRun(w: WorkerId, at: int, retryable: bool): seq<Step> {
    Claiming(w, at) + [Throw(w, retryable)] + [RenewToFail(w)] + [Fail(w, true)]
  }

  /** The statements of a handler whose `process` has the given outcome; `again` if it queues the job again. */
  function HandlerSteps(w: WorkerId, at: int, outcome: Outcome, again: bool): seq<Step> {
    match outcome
    case Done => Completing(w, at) + [Release(w)]
    case Threw(retryable) =>
      (if again then FailingRun(w, at, retryable) + [Requeue(w)] else FailingRun(w, at, retryable)) + [Release(w)]
  }

  lemma Acquires(s: State, steps: seq<Step>, t: State, w: WorkerId) returns (u: State)
    requires Run(s, steps) == Some(t) && t.lock.None? && PhaseOf(t, w).Idle?
    ensures Run(s, steps + [Acquire(w)]) == Some(u)
    ensures u.row == t.row && u.lock == Some(w) && u.claims == t.claims && OnlyWorker(t, u, w)
    ensures PhaseOf(u, w).Acquired?
  {
    Then(s, steps, t, Acquire(w));
    u := Apply(t, Acquire(w)).value;
  }

  lemma WritesClaim(s: State, steps: seq<Step>, t: State, w: WorkerId, at: int) returns (u: State)
    requires Run(s, steps) == Some(t) && t.row.status == Pending && PhaseOf(t, w).Acquired?
    ensures Run(s, steps + [Claim(w, at, true)]) == Some(u)
    ensures u.row == ClaimedRow(t.row, w, at) && u.lock == t.lock && OnlyWorker(t, u, w)
    ensures PhaseOf(u, w) == Working(Claimed(t.row.attempt, t.row.maxAttempts, t.claims + 1))
  {
    Then(s, steps, t, Claim(w, at, true));
    u := Apply(t, Claim(w, at, true)).value;
  }

  lemma RenewsToComplete(s: State, steps: seq<Step>, t: State, w: WorkerId) returns (u: State)
    requires Run(s, steps) == Some(t) && PhaseOf(t, w).Working? && t.lock == Some(w)
    ensures Run(s, steps + [RenewToComplete(w)]) == Some(u)
    ensures u.row == t.row && u.lock == t.lock && OnlyWorker(t, u, w) && PhaseOf(u, w).Completing?
  {
    Then(s, steps, t, RenewToComplete(w));
    u := Apply(t, RenewToComplete(w)).value;
  }

  lemma WritesSuccess(s: State, steps: seq<Step>, t: State, w: WorkerId) returns (u: State)
    requires Run(s, steps) == Some(t) && t.row.status == Running && PhaseOf(t, w).Completing?
    ensures Run(s, steps + [Complete(w, true)]) == Some(u)
    ensures u.row == t.row.(status := Succeeded, lockedBy := None, lockedAt := None)
    ensures u.lock == t.lock && OnlyWorker(t, u, w) && PhaseOf(u, w).Releasing?
  {
    Then(s, steps, t, Complete(w, true));
    u := Apply(t, Complete(w, true)).value;
  }

  lemma Throws(s: State, steps: seq<Step>, t: State, w: WorkerId, retryable: bool) returns (u: State)
    requires Run(s, steps) == Some(t) && PhaseOf(t, w).Working?
    ensures Run(s, steps + [Throw(w, retryable)]) == Some(u)
    ensures u.row == t.row && u.lock == t.lock && OnlyWorker(t, u, w)
    ensures PhaseOf(u, w) == Failing(PhaseOf(t, w).run, retryable)
  {
    Then(s, steps, t, Throw(w, retryable));
    u := Apply(t, Throw(w, retryable)).value;
  }

  lemma RenewsToFail(s: State, steps: seq<Step>, t: State, w: WorkerId) returns (u: State)
    requires Run(s, steps) == Some(t) && PhaseOf(t, w).Failing? && t.lock == Some(w)
    ensures Run(s, steps + [RenewToFail(w)]) == Some(u)
    ensures u.row == t.row && u.lock == t.lock && OnlyWorker(t, u, w)
    ensures PhaseOf(u, w) == FailWrite(PhaseOf(t, w).run, PhaseOf(t, w).retryable)
  {
    Then(s, steps, t, RenewToFail(w));
    u := Apply(t, RenewToFail(w)).value;
  }

  lemma WritesFailure(s: State, steps: seq<Step>, t: State, w: WorkerId) returns (u: State)
    requires Run(s, steps) == Some(t) && t.row.status == Running
    requires PhaseOf(t, w).FailWrite? && PhaseOf(t, w).run.attempt == t.row.attempt
    ensures Run(s, steps + [Fail(w, true)]) == Some(u)
    ensures u.row == FailedRow(t.row) && u.lock == t.lock && OnlyWorker(t, u, w)
    ensures PhaseOf(u, w) ==
      if PhaseOf(t, w).retryable && t.row.attempt + 1 < PhaseOf(t, w).run.maxAttempts then Requeueing else Releasing
  {
    Then(s, steps, t, Fail(w, true));
    u := Apply(t, Fail(w, true)).value;
  }

  lemma Claims(s: State, w: WorkerId, at: int) returns (t: State)
    requires s.lock.None? && s.row.status == Pending && PhaseOf(s, w).Idle?
    ensures Run(s, Claiming(w, at)) == Some(t)
    ensures t.row == ClaimedRow(s.row, w, at) && t.lock == Some(w) && OnlyWorker(s, t, w)
    ensures PhaseOf(t, w) == Working(Claimed(s.row.attempt, s.row.maxAttempts, s.claims + 1))
  {
    var a := Acquires(s, [], s, w);
    t := WritesClaim(s, [] + [Acquire(w)], a, w, at);
    StillOnlyWorker(s, a, t, w);
  }

  lemma Completes(s: State, steps: seq<Step>, t: State, w: WorkerId) returns (u: State)
    requires Run(s, steps) == Some(t) && t.row.status == Running && PhaseOf(t, w).Working? && t.lock == Some(w)
    ensures Run(s, steps + [RenewToComplete(w)] + [Complete(w, true)]) == Some(u)
    ensures u.row == t.row.(status := Succeeded, lockedBy := None, lockedAt := None)
    ensures u.lock == t.lock && OnlyWorker(t, u, w) && PhaseOf(u, w).Releasing?
  {
    var a := RenewsToComplete(s, steps, t, w);
    u := WritesSuccess(s, steps + [RenewToComplete(w)], a, w);
    StillOnlyWorker(t, a, u, w);
  }

  lemma EntersHandleFailure(s: State, steps: seq<Step>, t: State, w: WorkerId, retryable: bool) returns (u: State)
    requires Run(s, steps) == Some(t) && PhaseOf(t, w).Working? && t.lock == Some(w)
    ensures Run(s, steps + [Throw(w, retryable)] + [RenewToFail(w)]) == Some(u)
    ensures u.row == t.row && u.lock == t.lock && OnlyWorker(t, u, w)
    ensures PhaseOf(u, w) == FailWrite(PhaseOf(t, w).run, retryable)
  {
    var a := Throws(s, steps, t, w, retryable);
    u := RenewsToFail(s, steps + [Throw(w, retryable)], a, w);
    StillOnlyWorker(t, a, u, w);
  }

  lemma Fails(s: State, steps: seq<Step>, t: State, w: WorkerId, retryable: bool) returns (u: State)
    requires Run(s, steps) == Some(t) && t.row.status == Running && PhaseOf(t, w).Working? && t.lock == Some(w)
    requires PhaseOf(t, w).run.attempt == t.row.attempt && PhaseOf(t, w).run.maxAttempts == t.row.maxAttempts
    ensures Run(s, steps + [Throw(w, retryable)] + [RenewToFail(w)] + [Fail(w, true)]) == Some(u)
    ensures u.row == FailedRow(t.row) && u.lock == t.lock && OnlyWorker(t, u, w)
    ensures PhaseOf(u, w) == if retryable && t.row.attempt + 1 < t.row.maxAttempts then Requeueing else Releasing
  {
    var a := EntersHandleFailure(s, steps, t, w, retryable);
    u := WritesFailure(s, steps + [Throw(w, retryable)] + [RenewToFail(w)], a, w);
    StillOnlyWorker(t, a, u, w);
  }

  lemma Requeued(s: State, steps: seq<Step>, t: State, w: WorkerId) returns (u: State)
    requires Run(s, steps) == Some(t) && PhaseOf(t, w).Requeueing? && t.row.status == Failed
    ensures Run(s, steps + [Requeue(w)]) == Some(u)
    ensures u.row == t.row.(status := Pending) && u.lock == t.lock && OnlyWorker(t, u, w)
    ensures PhaseOf(u, w).Releasing?
  {
    Then(s, steps, t, Requeue(w));
    u := Apply(t, Requeue(w)).value;
  }

  lemma Releases(s: State, steps: seq<Step>, t: State, w: WorkerId) returns (u: State)
    requires Run(s, steps) == Some(t) && PhaseOf(t, w).Releasing? && t.lock == Some(w)
    ensures Run(s, steps + [Release(w)]) == Some(u)
    ensures u.row == t.row && u.lock == None && OnlyWorker(t, u, w) && PhaseOf(u, w).Idle?
  {
    Then(s, steps, t, Release(w));
    u := Apply(t, Release(w)).value;
  }

  lemma LeavesHandleFailure(s: State, steps: seq<Step>, t: State, w: WorkerId) returns (u: State)
    requires Run(s, steps) == Some(t) && t.lock == Some(w)
    requires (PhaseOf(t, w).Requeueing? && t.row.status == Failed) || PhaseOf(t, w).Releasing?
    ensures Run(s, (if PhaseOf(t, w).Requeueing? then steps + [Requeue(w)] else steps) + [Release(w)]) == Some(u)
    ensures u.row == if PhaseOf(t, w).Requeueing? then t.row.(status := Pending) else t.row
    ensures u.lock == None && OnlyWorker(t, u, w) && PhaseOf(u, w).Idle?
  {
    if PhaseOf(t, w).Requeueing? {
      var b := Requeued(s, steps, t, w);
      u := Releases(s, steps + [Requeue(w)], b, w);
      StillOnlyWorker(t, b, u, w);
    } else {
      u := Releases(s, steps, t, w);
    }
  }

  lemma CompletesAndReleases(s: State, w: WorkerId, at: int) returns (t: State)
    requires s.lock.None? && s.row.status == Pending && PhaseOf(s, w).Idle?
    ensures Run(s, HandlerSteps(w, at, Done, false)) == Some(t)
    ensures t.row == Handled(s.row, Done) && t.lock == None && PhaseOf(t, w).Idle? && OnlyWorker(s, t, w)
  {
    var a := Claims(s, w, at);
    var b := Completes(s, Claiming(w, at), a, w);
    t := Releases(s, Completing(w, at), b, w);
    StillOnlyWorker(s, a, b, w);
    StillOnlyWorker(s, b, t, w);
  }

  lemma FailsAndReleases(s: State, w: WorkerId, at: int, retryable: bool) returns (t: State)
    requires s.lock.None? && s.row.status == Pending && PhaseOf(s, w).Idle?
    ensures Run(s, HandlerSteps(w, at, Threw(retryable), retryable && s.row.attempt + 1 < s.row.maxAttempts))
            == Some(t)
    ensures t.row == Handled(s.row, Threw(retryable)) && t.lock == None && PhaseOf(t, w).Idle? && OnlyWorker(s, t, w)
  {
    var a := Claims(s, w, at);
    var b := Fails(s, Claiming(w, at), a, w, retryable);
    t := LeavesHandleFailure(s, FailingRun(w, at, retryable), b, w);
    StillOnlyWorker(s, a, b, w);
    StillOnlyWorker(s, b, t, w);
  }

  /**
    From every state with a free lock, a pending row and the worker idle, an undisturbed
    handler can take all its steps, requeueing a thrown job exactly when the error is
    retryable and an attempt is left, and ends in the row that HandleJob leaves.
   */
  lemma HandlerEndsInHandledRow(s: State, w: WorkerId, at: int, outcome: Outcome) returns (t: State)
    requires s.lock.None? && s.row.status == Pending && PhaseOf(s, w).Idle?
    ensures Run(s, HandlerSteps(w, at, outcome, outcome == Threw(true) && s.row.attempt + 1 < s.row.maxAttempts))
            == Some(t)
    ensures t.row == Handled(s.row, outcome) && t.lock == None
    ensures PhaseOf(t, w).Idle? && OnlyWorker(s, t, w)
    ensures t.row.status == Pending <==> outcome == Threw(true) && s.row.attempt + 1 < s.row.maxAttempts
    ensures t.row.status == Succeeded <==> outcome == Done
  {
    match outcome
    case Done =>
      t := CompletesAndReleases(s, w, at);
    case Threw(retryable) =>
      t := FailsAndReleases(s, w, at, retryable);
  }

  // ---- The scanner ----

  predicate OnlyScanner(s: State, t: State, k: ScannerId) {
    t.workers == s.workers && t.scanners == s.scanners[k := ScanPhaseOf(t, k)]
  }

  function ScanFailing(k: ScannerId): seq<Step> { [] + [ScanRead(k)] + [ScanFail(k, true)] }

  /** The statements of one iteration of the scan; `again` if it queues the job again. */
  function ScannerSteps(k: ScannerId, again: bool): seq<Step> {
    (if again then ScanFailing(k) + [ScanRequeue(k, true)] else ScanFailing(k)) + [ScanRelease(k)]
  }

  lemma StillOnlyScanner(s: State, t: State, u: State, k: ScannerId)
    requires OnlyScanner(s, t, k) && OnlyScanner(t, u, k)
    ensures OnlyScanner(s, u, k)
  {
  }

  lemma ScanReads(s: State, steps: seq<Step>, t: State, k: ScannerId) returns (u: State)
    requires Run(s, steps) == Some(t) && t.row.status == Running && ScanPhaseOf(t, k).Resting?
    ensures Run(s, steps + [ScanRead(k)]) == Some(u)
    ensures u.row == t.row && u.lock == t.lock && OnlyScanner(t, u, k)
    ensures ScanPhaseOf(u, k) == ReadRow(t.row.attempt, t.row.maxAttempts, t.row.lockedBy, t.claims)
  {
    Then(s, steps, t, ScanRead(k));
    u := Apply(t, ScanRead(k)).value;
  }

  lemma ScanWritesFailure(s: State, steps: seq<Step>, t: State, k: ScannerId) returns (u: State)
    requires Run(s, steps) == Some(t) && t.row.status == Running
    requires ScanPhaseOf(t, k).ReadRow? && ScanPhaseOf(t, k).attempt == t.row.attempt
    ensures Run(s, steps + [ScanFail(k, true)]) == Some(u)
    ensures u.row == FailedRow(t.row) && u.lock == t.lock && OnlyScanner(t, u, k)
    ensures var read := ScanPhaseOf(t, k);
      ScanPhaseOf(u, k) ==
        if t.row.attempt + 1 < read.maxAttempts then ScanRequeueing(read.lockedBy, read.serial)
        else ScanReleasing(read.lockedBy, read.serial)
  {
    Then(s, steps, t, ScanFail(k, true));
    u := Apply(t, ScanFail(k, true)).value;
  }

  lemma ScanFails(s: State, k: ScannerId) returns (t: State)
    requires s.row.status == Running && ScanPhaseOf(s, k).Resting?
    ensures Run(s, ScanFailing(k)) == Some(t)
    ensures t.row == FailedRow(s.row) && t.lock == s.lock && OnlyScanner(s, t, k)
    ensures ScanPhaseOf(t, k) ==
      if s.row.attempt + 1 < s.row.maxAttempts then ScanRequeueing(s.row.lockedBy, s.claims)
      else ScanReleasing(s.row.lockedBy, s.claims)
  {
    var a := ScanReads(s, [], s, k);
    t := ScanWritesFailure(s, [] + [ScanRead(k)], a, k);
    StillOnlyScanner(s, a, t, k);
  }

  lemma ScanRequeues(s: State, steps: seq<Step>, t: State, k: ScannerId) returns (u: State)
    requires Run(s, steps) == Some(t) && ScanPhaseOf(t, k).ScanRequeueing? && t.row.status == Failed
    ensures Run(s, steps + [ScanRequeue(k, true)]) == Some(u)
    ensures u.row == t.row.(status := Pending) && u.lock == t.lock && OnlyScanner(t, u, k)
    ensures ScanPhaseOf(u, k) == ScanReleasing(ScanPhaseOf(t, k).owner, ScanPhaseOf(t, k).serial)
  {
    Then(s, steps, t, ScanRequeue(k, true));
    u := Apply(t, ScanRequeue(k, true)).value;
  }

  lemma ScanReleases(s: State, steps: seq<Step>, t: State, k: ScannerId) returns (u: State)
    requires Run(s, steps) == Some(t) && ScanPhaseOf(t, k).ScanReleasing?
    ensures Run(s, steps + [ScanRelease(k)]) == Some(u)
    ensures u.row == t.row && OnlyScanner(t, u, k) && ScanPhaseOf(u, k).Resting?
    ensures u.lock == if t.lock == ScanPhaseOf(t, k).owner then None else t.lock
  {
    Then(s, steps, t, ScanRelease(k));
    u := Apply(t, ScanRelease(k)).value;
  }

  lemma ScanEnds(s: State, steps: seq<Step>, t: State, k: ScannerId, owner: Option<WorkerId>) returns (u: State)
    requires Run(s, steps) == Some(t)
    requires ScanPhaseOf(t, k).ScanRequeueing? || ScanPhaseOf(t, k).ScanReleasing?
    requires ScanPhaseOf(t, k).owner == owner && t.row.status == Failed
    ensures Run(s, (if ScanPhaseOf(t, k).ScanRequeueing? then steps + [ScanRequeue(k, true)] else steps)
                   + [ScanRelease(k)]) == Some(u)
    ensures u.row == if ScanPhaseOf(t, k).ScanRequeueing? then t.row.(status := Pending) else t.row
    ensures u.lock == if t.lock == owner then None else t.lock
    ensures OnlyScanner(t, u, k) && ScanPhaseOf(u, k).Resting?
  {
    if ScanPhaseOf(t, k).ScanRequeueing? {
      var b := ScanRequeues(s, steps, t, k);
      u := ScanReleases(s, steps + [ScanRequeue(k, true)], b, k);
      StillOnlyScanner(t, b, u, k);
    } else {
      u := ScanReleases(s, steps, t, k);
    }
  }

  /**
    From every state with a running row, an undisturbed scanner can take all its steps on
    it and ends in the row and the lock that Scan leaves of an expired job.
   */
  lemma ScannerEndsInTimedOutRow(s: State, k: ScannerId) returns (t: State)
    requires s.row.status == Running && ScanPhaseOf(s, k).Resting?
    ensures Run(s, ScannerSteps(k, s.row.attempt + 1 < s.row.maxAttempts)) == Some(t)
    ensures t.row == TimedOut(s.row) && t.lock == JobTable.LockAfterTimeout(s.lock, s.row)
    ensures ScanPhaseOf(t, k).Resting? && OnlyScanner(s, t, k)
    ensures t.row.status == if s.row.attempt + 1 < s.row.maxAttempts then Pending else Failed
    ensures t.lock == if s.lock == s.row.lockedBy then None else s.lock
  {
    var a := ScanFails(s, k);
    t := ScanEnds(s, ScanFailing(k), a, k, s.row.lockedBy);
    StillOnlyScanner(s, a, t, k);
  }

  // ---- What a disturbed actor does ----

  /** A lock that is held refuses the handler; a lock lost before a write turns the handler away from it. */
  lemma LocksRefuse(s: State, w: WorkerId)
    requires s.lock.Some?
    ensures PhaseOf(s, w).Idle? ==>
      && Apply(s, Acquire(w)).Some?
      && var t := Apply(s, Acquire(w)).value; PhaseOf(t, w).Idle? && t.lock == s.lock && t.row == s.row
    ensures PhaseOf(s, w).Working? && s.lock != Some(w) ==>
      && Apply(s, RenewToComplete(w)).Some?
      && var t := Apply(s, RenewToComplete(w)).value;
         PhaseOf(t, w) == Failing(PhaseOf(s, w).run, true) && t.lock == s.lock && t.row == s.row
    ensures PhaseOf(s, w).Failing? && s.lock != Some(w) ==>
      && Apply(s, RenewToFail(w)).Some?
      && var t := Apply(s, RenewToFail(w)).value; PhaseOf(t, w).Releasing? && t.lock == s.lock && t.row == s.row
    ensures PhaseOf(s, w).Releasing? && s.lock != Some(w) ==>
      && Apply(s, Release(w)).Some?
      && var t := Apply(s, Release(w)).value; PhaseOf(t, w).Idle? && t.lock == s.lock && t.row == s.row
  {
  }

  /** A guarded write that does not find its status leaves the row; a handler then fails its run or gives up. */
  lemma WritesRefuse(s: State, w: WorkerId, at: int, logged: bool)
    ensures PhaseOf(s, w).Acquired? && s.row.status != Pending ==>
      && Apply(s, Claim(w, at, logged)).Some?
      && var t := Apply(s, Claim(w, at, logged)).value; PhaseOf(t, w).Releasing? && t.row == s.row
    ensures PhaseOf(s, w).Completing? && s.row.status != Running ==>
      && Apply(s, Complete(w, logged)).Some?
      && var t := Apply(s, Complete(w, logged)).value;
         PhaseOf(t, w) == Failing(PhaseOf(s, w).run, true) && t.row == s.row
    ensures PhaseOf(s, w).FailWrite? && s.row.status != Running ==>
      && Apply(s, Fail(w, logged)).Some?
      && var t := Apply(s, Fail(w, logged)).value; PhaseOf(t, w).Releasing? && t.row == s.row
    ensures PhaseOf(s, w).Requeueing? && s.row.status != Failed ==>
      && Apply(s, Requeue(w)).Some?
      && var t := Apply(s, Requeue(w)).value; PhaseOf(t, w).Releasing? && t.row == s.row
  {
  }

  /** So a scanner leaves a row that is no longer as it must be, and goes on to the next. */
  lemma ScansRefuse(s: State, k: ScannerId, logged: bool)
    ensures ScanPhaseOf(s, k).ReadRow? && s.row.status != Running ==>
      && Apply(s, ScanFail(k, logged)).Some?
      && var t := Apply(s, ScanFail(k, logged)).value;
         ScanPhaseOf(t, k).Resting? && t.row == s.row && t.lock == s.lock
    ensures ScanPhaseOf(s, k).ScanRequeueing? && s.row.status != Failed ==>
      && Apply(s, ScanRequeue(k, logged)).Some?
      && var t := Apply(s, ScanRequeue(k, logged)).value;
         ScanPhaseOf(t, k).Resting? && t.row == s.row && t.lock == s.lock
  {
  }

  /** A cancellation ends a pending or running job, and no other. Whoever holds the lock keeps it. */
  lemma CancelEndsTheJob(s: State)
    ensures Apply(s, Cancel).Some?
    ensures var t := Apply(s, Cancel).value;
      && t.row == (if s.row.status in {Pending, Running}
                   then s.row.(status := Cancelled, lockedBy := None, lockedAt := None) else s.row)
      && t.lock == s.lock && t.workers == s.workers && t.scanners == s.scanners
  {
  }
}
