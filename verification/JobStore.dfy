/**
  The job table and the Redis lock of packages/job-core: status compare-and-swap,
  the owner-checked lock, and one uninterrupted pass of the timeout scanner.
  The functions below are what one statement does to one row or one lock key; the
  class applies them in place, and JobProtocol interleaves them.
 */
module JobStore {
  import opened Options

  type WorkerId = string
  type JobId = string

  const DEFAULT_JOB_TIMEOUT_SECONDS: int := 1800

  datatype Status = Pending | Running | Succeeded | Failed | Cancelled

  /** The columns of a job that the protocol reads or writes. Times are in seconds. */
  datatype Row = Row(
    status: Status,
    attempt: nat,
    maxAttempts: nat,
    lockedBy: Option<WorkerId>,
    lockedAt: Option<int>,
    timeoutSeconds: Option<int>)

  /** What an update sets beside the status: absent means the column keeps its value. */
  datatype Update = Update(attempt: Option<nat>, lock: LockColumns)
  datatype LockColumns = Keep | Clear | Hold(holder: WorkerId, since: int)

  const NO_UPDATE := Update(None, Keep)

  function Transitions(from: Status): set<Status> {
    match from
    case Pending => {Running, Cancelled}
    case Running => {Succeeded, Failed, Cancelled}
    case Failed => {Pending}
    case Succeeded => {}
    case Cancelled => {}
  }

  function Updated(row: Row, to: Status, u: Update): Row {
    var attempt := if u.attempt.Some? then u.attempt.value else row.attempt;
    match u.lock
    case Keep => row.(status := to, attempt := attempt)
    case Clear => row.(status := to, attempt := attempt, lockedBy := None, lockedAt := None)
    case Hold(w, t) => row.(status := to, attempt := attempt, lockedBy := Some(w), lockedAt := Some(t))
  }

  /** The guarded update: the new row, or None when the guard on the status fails. */
  function Cas(row: Row, from: Status, to: Status, u: Update): Option<Row> {
    if to in Transitions(from) && row.status == from then Some(Updated(row, to, u)) else None
  }

  function AcquireLock(lock: Option<WorkerId>, w: WorkerId): Option<WorkerId> {
    if lock.None? then Some(w) else lock
  }

  function ReleaseLock(lock: Option<WorkerId>, w: WorkerId): Option<WorkerId> {
    if lock == Some(w) then None else lock
  }

  function FailUpdate(attempt: nat): Update { Update(Some(attempt + 1), Clear) }

  predicate Expired(row: Row, now: int) {
    && row.status == Running
    && row.lockedAt.Some?
    && row.lockedAt.value
       + (if row.timeoutSeconds.Some? then row.timeoutSeconds.value else DEFAULT_JOB_TIMEOUT_SECONDS) < now
  }

  /** An expired run after an undisturbed scan: failed, and queued again while attempts remain. */
  function TimedOut(row: Row): Row {
    row.(attempt := row.attempt + 1, lockedBy := None, lockedAt := None,
         status := if row.attempt + 1 < row.maxAttempts then Pending else Failed)
  }

  /** What `process` did with a claimed job. */
  datatype Outcome = Done | Threw(retryable: bool)

  /** A pending row after an undisturbed handler: succeeded, or failed and perhaps queued again. */
  function Handled(row: Row, outcome: Outcome): Row {
    var released := row.(lockedBy := None, lockedAt := None);
    match outcome
    case Done => released.(status := Succeeded)
    case Threw(retryable) =>
      released.(attempt := row.attempt + 1,
                status := if retryable && row.attempt + 1 < row.maxAttempts then Pending else Failed)
  }

  /** The row a handler leaves: what decides its status, and what becomes of each column. */
  lemma HandledIs(row: Row, outcome: Outcome)
    ensures var r := Handled(row, outcome);
      && (r.status == Pending <==> outcome == Threw(true) && row.attempt + 1 < row.maxAttempts)
      && (r.status == Succeeded <==> outcome == Done)
      && r.status in {Pending, Succeeded, Failed}
      && r.attempt == (if outcome == Done then row.attempt else row.attempt + 1)
      && r.lockedBy == None && r.lockedAt == None
      && r.maxAttempts == row.maxAttempts && r.timeoutSeconds == row.timeoutSeconds
  {
  }

  /** A run expires once more seconds have passed since its claim than its own or the default timeout. */
  lemma ExpiresAfterItsTimeout(row: Row, claimedAt: int, now: int)
    requires row.status == Running && row.lockedAt == Some(claimedAt)
    ensures row.timeoutSeconds == None ==> (Expired(row, now) <==> now - claimedAt > 1800)
    ensures row.timeoutSeconds.Some? ==> (Expired(row, now) <==> now - claimedAt > row.timeoutSeconds.value)
  {
  }

  datatype TransitionResult = Moved(row: Row) | Conflict(current: Status) | InvalidTransition | NotFound

  class JobTable {
    var rows: map<JobId, Row>
    var locks: map<JobId, WorkerId>

    constructor ()
      ensures rows == map[] && locks == map[]
    {
      rows, locks := map[], map[];
    }

    function LockOf(id: JobId): Option<WorkerId>
      reads this
    {
      if id in locks then Some(locks[id]) else None
    }

    function WithLock(id: JobId, l: Option<WorkerId>): map<JobId, WorkerId>
      reads this
    {
      if l.Some? then locks[id := l.value] else locks - {id}
    }

    method Transition(id: JobId, from: Status, to: Status, u: Update) returns (r: TransitionResult)
      modifies this`rows
      ensures r.InvalidTransition? <==>
        !(   (from == Pending && to == Running)
          || (from == Running && (to == Succeeded || to == Failed))
          || ((from == Pending || from == Running) && to == Cancelled)
          || (from == Failed && to == Pending))
      ensures r.NotFound? <==> !r.InvalidTransition? && id !in old(rows)
      ensures r.Moved? <==> id in old(rows) && Cas(old(rows)[id], from, to, u).Some?
      ensures r.Moved? ==> Some(r.row) == Cas(old(rows)[id], from, to, u) && rows == old(rows)[id := r.row]
      ensures r.Moved? ==>
        var was := old(rows)[id];
        && was.status == from && r.row.status == to
        && r.row.attempt == (if u.attempt.Some? then u.attempt.value else was.attempt)
        && r.row.maxAttempts == was.maxAttempts && r.row.timeoutSeconds == was.timeoutSeconds
        && (u.lock.Keep? ==> r.row.lockedBy == was.lockedBy && r.row.lockedAt == was.lockedAt)
        && (u.lock.Clear? ==> r.row.lockedBy == None && r.row.lockedAt == None)
        && (u.lock.Hold? ==> r.row.lockedBy == Some(u.lock.holder) && r.row.lockedAt == Some(u.lock.since))
      ensures r.Conflict? ==> id in rows && r.current == rows[id].status && r.current != from
      ensures !r.Moved? ==> rows == old(rows)
    {
      if to !in Transitions(from) {
        return InvalidTransition;
      }
      if id in rows && rows[id].status == from {
        var updated := Updated(rows[id], to, u);
        rows := rows[id := updated];
        return Moved(updated);
      }
      if id !in rows {
        return NotFound;
      }
      return Conflict(rows[id].status);
    }

    method Acquire(id: JobId, w: WorkerId) returns (ok: bool)
      modifies this`locks
      ensures ok <==> old(LockOf(id)).None?
      ensures locks == old(WithLock(id, AcquireLock(LockOf(id), w)))
      ensures LockOf(id) == if ok then Some(w) else old(LockOf(id))
      ensures forall other :: other != id ==> LockOf(other) == old(LockOf(other))
    {
      ok := id !in locks;
      if ok {
        locks := locks[id := w];
      } else {
        assert locks == locks[id := locks[id]];
      }
    }

    method Renew(id: JobId, w: WorkerId) returns (ok: bool)
      ensures ok <==> LockOf(id) == Some(w)
    {
      ok := id in locks && locks[id] == w;
    }

    method Release(id: JobId, w: WorkerId) returns (deleted: bool)
      modifies this`locks
      ensures deleted <==> old(LockOf(id)) == Some(w)
      ensures locks == old(WithLock(id, ReleaseLock(LockOf(id), w)))
      ensures LockOf(id) == if deleted then None else old(LockOf(id))
      ensures forall other :: other != id ==> LockOf(other) == old(LockOf(other))
    {
      deleted := id in locks && locks[id] == w;
      if deleted {
        locks := locks - {id};
      } else {
        assert id in locks ==> locks == locks[id := locks[id]];
      }
    }

    /** What the scanner leaves of the lock of an expired job: its recorded owner's lock goes. */
    static function LockAfterTimeout(l: Option<WorkerId>, job: Row): Option<WorkerId> {
      if job.lockedBy.Some? then ReleaseLock(l, job.lockedBy.value) else l
    }

    /** One iteration of the scan, when nobody has moved the row since it was read. */
    method TimeOutJob(id: JobId, job: Row)
      requires id in rows && rows[id] == job && job.status == Running
      modifies this
      ensures rows == old(rows)[id := TimedOut(job)] && rows.Keys == old(rows).Keys
      ensures LockOf(id) == LockAfterTimeout(old(LockOf(id)), job)
      ensures forall other :: other != id ==> LockOf(other) == old(LockOf(other))
    {
      var failed := Transition(id, Running, Failed, FailUpdate(job.attempt));
      if job.attempt + 1 < job.maxAttempts {
        var queued := Transition(id, Failed, Pending, NO_UPDATE);
      }
      if job.lockedBy.Some? {
        var deleted := Release(id, job.lockedBy.value);
      }
    }

    /** `handleBullMQJob` without interference, for a job whose `process` has the given outcome. */
    method HandleJob(id: JobId, w: WorkerId, at: int, outcome: Outcome) returns (handled: bool)
      requires id in rows
      modifies this
      ensures handled <==> old(LockOf(id).None? && rows[id].status == Pending)
      ensures rows == if handled then old(rows)[id := Handled(old(rows)[id], outcome)] else old(rows)
      ensures handled ==>
        var was, row := old(rows)[id], rows[id];
        && (row.status == Pending <==> outcome == Threw(true) && was.attempt + 1 < was.maxAttempts)
        && (row.status == Succeeded <==> outcome == Done)
        && row.status in {Pending, Succeeded, Failed}
        && row.attempt == (if outcome == Done then was.attempt else was.attempt + 1)
        && row.lockedBy == None && row.lockedAt == None
      ensures LockOf(id) == old(LockOf(id)) && forall other :: other != id ==> LockOf(other) == old(LockOf(other))
    {
      HandledIs(rows[id], outcome);
      var acquired := Acquire(id, w);
      if !acquired {
        return false;
      }
      var claimed := Transition(id, Pending, Running, Update(None, Hold(w, at)));
      handled := claimed.Moved?;
      if handled {
        ProcessClaimed(id, w, claimed.row, outcome);
      }
      var deleted := Release(id, w);
    }

    /** What follows the claim: the completion, or `handleFailure`. */
    method ProcessClaimed(id: JobId, w: WorkerId, job: Row, outcome: Outcome)
      requires id in rows && rows[id] == job && job.status == Running && LockOf(id) == Some(w)
      modifies this`rows
      ensures rows == old(rows)[id := Handled(job, outcome)]
    {
      var renewed := Renew(id, w);
      match outcome
      case Done =>
        var done := Transition(id, Running, Succeeded, Update(None, Clear));
      case Threw(retryable) =>
        var failed := Transition(id, Running, Failed, FailUpdate(job.attempt));
        if retryable && job.attempt + 1 < job.maxAttempts {
          var queued := Transition(id, Failed, Pending, NO_UPDATE);
        }
    }

    /** A scan has timed the job out, or not touched it yet. */
    static predicate ScannedAt(
      rows: map<JobId, Row>, lock: Option<WorkerId>, jobs: map<JobId, Row>, was: Option<WorkerId>, timedOut: bool,
      id: JobId)
    {
      && (id in rows <==> id in jobs) && (timedOut ==> id in jobs)
      && (id in jobs ==> rows[id] == if timedOut then TimedOut(jobs[id]) else jobs[id])
      && lock == if timedOut then LockAfterTimeout(was, jobs[id]) else was
    }

    /** One scan without interference, in any order of the expired rows. */
    method Scan(now: int) returns (handled: nat)
      modifies this
      ensures rows.Keys == old(rows).Keys
      ensures forall id | id in rows ::
        rows[id] == if Expired(old(rows)[id], now) then TimedOut(old(rows)[id]) else old(rows)[id]
      ensures forall id | id in rows && Expired(old(rows)[id], now) ::
        var was, row := old(rows)[id], rows[id];
        && row.status == (if was.attempt + 1 < was.maxAttempts then Pending else Failed)
        && row.attempt == was.attempt + 1 && row.lockedBy == None && row.lockedAt == None
      ensures forall id | id in old(rows) && Expired(old(rows)[id], now) ::
        LockOf(id) == LockAfterTimeout(old(LockOf(id)), old(rows)[id])
      ensures forall id | id in old(rows) && Expired(old(rows)[id], now) ::
        LockOf(id) == if old(LockOf(id)) == old(rows)[id].lockedBy then None else old(LockOf(id))
      ensures forall id | !(id in old(rows) && Expired(old(rows)[id], now)) :: LockOf(id) == old(LockOf(id))
      ensures handled == |set id | id in old(rows) && Expired(old(rows)[id], now)|
    {
      var jobs := rows;
      var expired := set id | id in jobs && Expired(jobs[id], now);
      var todo := expired;
      handled := 0;
      while todo != {}
        invariant todo <= expired && handled == |expired| - |todo|
        invariant rows.Keys == jobs.Keys
        invariant forall id :: ScannedAt(rows, LockOf(id), jobs, old(LockOf(id)), id in expired && id !in todo, id)
      {
        var id :| id in todo;
        assert ScannedAt(rows, LockOf(id), jobs, old(LockOf(id)), false, id);
        TimeOutJob(id, jobs[id]);
        todo := todo - {id};
        handled := handled + 1;
      }
      forall id
        ensures id in rows ==> rows[id] == if Expired(jobs[id], now) then TimedOut(jobs[id]) else jobs[id]
        ensures LockOf(id) == if id in expired then LockAfterTimeout(old(LockOf(id)), jobs[id]) else old(LockOf(id))
      {
        assert ScannedAt(rows, LockOf(id), jobs, old(LockOf(id)), id in expired, id);
      }
    }
  }
}
