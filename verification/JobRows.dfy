/** The rows of app.durable_jobs, the statements that move them, and what every run of them keeps. */
module JobRows {
  import opened Results

  datatype Status = PENDING | LEASED | COMPLETED | DEAD_LETTER

  /** Times are seconds. */
  datatype Row = Row(
    status: Status, jobType: string, availableAt: real, attempts: int, maximumAttempts: int,
    leaseOwner: Option<string>, leaseExpiresAt: Option<real>, lastErrorCode: Option<string>)

  datatype Key = Key(tenantId: string, id: string)

  type Rows = map<Key, Row>

  /* ---- The statements, row by row ---- */

  predicate OwnedBy(row: Row, worker: string) {
    row.status == LEASED && row.leaseOwner == Some(worker)
  }

  predicate Expired(row: Row, now: real) {
    row.leaseExpiresAt.Some? && row.leaseExpiresAt.value < now
  }

  /** The candidates of app.claim_durable_jobs. */
  predicate Claimable(row: Row, now: real) {
    && row.availableAt <= now
    && row.attempts < row.maximumAttempts
    && (row.status == PENDING || (row.status == LEASED && Expired(row, now)))
  }

  function Leased(row: Row, worker: string, now: real, seconds: int): Row {
    row.(status := LEASED, leaseOwner := Some(worker), leaseExpiresAt := Some(now + seconds as real), attempts := row.attempts + 1)
  }

  /** An update of the caller's own leased row; of any other row it changes nothing. */
  function Update(rows: Rows, key: Key, worker: string, row: Row): Rows {
    if key in rows && OwnedBy(rows[key], worker) then rows[key := row] else rows
  }

  function At(rows: Rows, key: Key): Row {
    if key in rows then rows[key] else Row(PENDING, "", 0.0, 0, 0, None, None, None)
  }

  function CompletedRow(row: Row): Row {
    row.(status := COMPLETED, leaseOwner := None, leaseExpiresAt := None)
  }

  function RetriedRow(row: Row, nextAvailableAt: real, code: string): Row {
    row.(status := PENDING, availableAt := nextAvailableAt, leaseOwner := None, leaseExpiresAt := None, lastErrorCode := Some(code))
  }

  function DeadRow(row: Row, code: string): Row {
    row.(status := DEAD_LETTER, leaseOwner := None, leaseExpiresAt := None, lastErrorCode := Some(code))
  }

  function Complete(rows: Rows, key: Key, worker: string): Rows {
    Update(rows, key, worker, CompletedRow(At(rows, key)))
  }

  function Retry(rows: Rows, key: Key, worker: string, nextAvailableAt: real, code: string): Rows {
    Update(rows, key, worker, RetriedRow(At(rows, key), nextAvailableAt, code))
  }

  function DeadLetter(rows: Rows, key: Key, worker: string, code: string): Rows {
    Update(rows, key, worker, DeadRow(At(rows, key), code))
  }

  function Heartbeat(rows: Rows, key: Key, worker: string, now: real, seconds: int): Rows {
    Update(rows, key, worker, At(rows, key).(leaseExpiresAt := Some(now + seconds as real)))
  }

  function Claim(rows: Rows, key: Key, worker: string, now: real, seconds: int): Rows {
    if key in rows && Claimable(rows[key], now) then rows[key := Leased(rows[key], worker, now, seconds)] else rows
  }

  /** The provisioning recovery puts its job back in the queue unless a live lease holds it. */
  predicate LeaseActive(row: Row, now: real) {
    row.status == LEASED && (row.leaseExpiresAt.None? || row.leaseExpiresAt.value > now)
  }

  function Recover(rows: Rows, key: Key, now: real): Rows {
    if key !in rows || LeaseActive(rows[key], now) then rows
    else rows[key := rows[key].(status := PENDING, availableAt := now, leaseOwner := None, leaseExpiresAt := None,
                                lastErrorCode := None, attempts := if rows[key].status == DEAD_LETTER then 0 else rows[key].attempts)]
  }

  /* ---- Runs ---- */

  datatype Step =
    | Tick(seconds: real)
    | Enqueue(key: Key, jobType: string, availableAt: real, maximumAttempts: int)
    | DoClaim(key: Key, worker: string, leaseSeconds: int)
    | DoComplete(key: Key, worker: string)
    | DoRetry(key: Key, worker: string, nextAvailableAt: real, code: string)
    | DoDeadLetter(key: Key, worker: string, code: string)
    | DoHeartbeat(key: Key, worker: string, leaseSeconds: int)
    | DoRecover(key: Key)

  datatype World = World(rows: Rows, now: real)

  /** One transaction, or the passing of time. */
  function Apply(w: World, step: Step): World {
    match step
    case Tick(seconds) => if seconds > 0.0 then w.(now := w.now + seconds) else w
    case Enqueue(key, jobType, availableAt, maximumAttempts) =>
      if key in w.rows || maximumAttempts < 0 then w
      else w.(rows := w.rows[key := Row(PENDING, jobType, availableAt, 0, maximumAttempts, None, None, None)])
    case DoClaim(key, worker, seconds) => w.(rows := Claim(w.rows, key, worker, w.now, seconds))
    case DoComplete(key, worker) => w.(rows := Complete(w.rows, key, worker))
    case DoRetry(key, worker, at, code) => w.(rows := Retry(w.rows, key, worker, at, code))
    case DoDeadLetter(key, worker, code) => w.(rows := DeadLetter(w.rows, key, worker, code))
    case DoHeartbeat(key, worker, seconds) => w.(rows := Heartbeat(w.rows, key, worker, w.now, seconds))
    case DoRecover(key) => w.(rows := Recover(w.rows, key, w.now))
  }

  function Run(w: World, steps: seq<Step>): World {
    if steps == [] then w else Apply(Run(w, steps[..|steps| - 1]), steps[|steps| - 1])
  }

  /** A lease has an owner and an end; nothing else has; and no row is claimed too often. */
  predicate WellFormedRow(row: Row) {
    && (row.status == LEASED <==> row.leaseOwner.Some?)
    && (row.status == LEASED <==> row.leaseExpiresAt.Some?)
    && 0 <= row.attempts <= row.maximumAttempts
  }

  ghost predicate WellFormed(rows: Rows) {
    forall k :: k in rows ==> WellFormedRow(rows[k])
  }

  lemma ApplyWellFormed(w: World, step: Step)
    requires WellFormed(w.rows)
    ensures WellFormed(Apply(w, step).rows)
  {
  }

  lemma {:induction false} RunWellFormed(w: World, steps: seq<Step>)
    requires WellFormed(w.rows)
    ensures WellFormed(Run(w, steps).rows)
  {
    hide Apply, WellFormed;
    if steps != [] {
      RunWellFormed(w, steps[..|steps| - 1]);
      ApplyWellFormed(Run(w, steps[..|steps| - 1]), steps[|steps| - 1]);
    }
  }

  /** The worker in whose name a step is made. */
  function Actor(step: Step): Option<string> {
    match step
    case DoComplete(_, worker) => Some(worker)
    case DoRetry(_, worker, _, _) => Some(worker)
    case DoDeadLetter(_, worker, _) => Some(worker)
    case DoHeartbeat(_, worker, _) => Some(worker)
    case _ => None
  }

  /** Fencing: a row under a live lease is moved by its owner only. */
  lemma OnlyOwnerMoves(w: World, step: Step, key: Key)
    requires WellFormed(w.rows) && key in w.rows && w.rows[key].status == LEASED
    requires w.rows[key].leaseExpiresAt.value > w.now
    ensures key in Apply(w, step).rows
    ensures Apply(w, step).rows[key] != w.rows[key] ==> Actor(step) == w.rows[key].leaseOwner
  {
  }

  predicate IsFinal(row: Row) {
    row.status == COMPLETED || row.status == DEAD_LETTER
  }

  /** Completed and dead-lettered rows are final for everything but the provisioning recovery. */
  lemma {:induction false} FinalStays(w: World, steps: seq<Step>, key: Key)
    requires key in w.rows && IsFinal(w.rows[key]) && DoRecover(key) !in steps
    ensures key in Run(w, steps).rows && Run(w, steps).rows[key] == w.rows[key]
  {
    hide Run;
    if steps == [] {
      RunNothing(w);
    } else {
      var front, last := steps[..|steps| - 1], steps[|steps| - 1];
      FinalStays(w, front, key);
      RunLast(w, steps);
      assert last in steps;
    }
  }

  lemma RunNothing(w: World)
    ensures Run(w, []) == w
  {
  }

  lemma RunLast(w: World, steps: seq<Step>)
    requires steps != []
    ensures Run(w, steps) == Apply(Run(w, steps[..|steps| - 1]), steps[|steps| - 1])
  {
    hide Apply;
  }

  /** How often the run claims the job. */
  function Claims(w: World, steps: seq<Step>, key: Key): nat {
    if steps == [] then 0
    else
      var front, last := steps[..|steps| - 1], steps[|steps| - 1];
      Claims(w, front, key)
      + (if last.DoClaim? && last.key == key && Apply(Run(w, front), last) != Run(w, front) then 1 else 0)
  }

  /** Every attempt counts: without recovery a job is claimed at most maximumAttempts times in its life. */
  lemma {:induction false} ClaimsBounded(w: World, steps: seq<Step>, key: Key)
    requires WellFormed(w.rows) && key in w.rows && DoRecover(key) !in steps
    ensures key in Run(w, steps).rows
    ensures Run(w, steps).rows[key].attempts == w.rows[key].attempts + Claims(w, steps, key)
    ensures Run(w, steps).rows[key].maximumAttempts == w.rows[key].maximumAttempts
    ensures w.rows[key].attempts + Claims(w, steps, key) <= w.rows[key].maximumAttempts
  {
    hide Run, WellFormed, WellFormedRow;
    RunWellFormed(w, steps);
    if steps == [] {
      RunNothing(w);
    } else {
      var front, last := steps[..|steps| - 1], steps[|steps| - 1];
      ClaimsBounded(w, front, key);
      RunLast(w, steps);
      assert last in steps;
      ClaimStep(Run(w, front), last, key);
    }
    AttemptsWithin(Run(w, steps), key);
  }

  lemma AttemptsWithin(w: World, key: Key)
    requires WellFormed(w.rows) && key in w.rows
    ensures w.rows[key].attempts <= w.rows[key].maximumAttempts
  {
  }

  lemma ClaimStep(w: World, step: Step, key: Key)
    requires key in w.rows && step != DoRecover(key)
    ensures key in Apply(w, step).rows
    ensures Apply(w, step).rows[key].maximumAttempts == w.rows[key].maximumAttempts
    ensures Apply(w, step).rows[key].attempts
         == w.rows[key].attempts + (if step.DoClaim? && step.key == key && Apply(w, step) != w then 1 else 0)
  {
  }

  predicate IsLeased(w: World, key: Key) {
    key in w.rows && w.rows[key].status == LEASED
  }

  /** Completes, retries or dead-letters the job in the name of a worker. */
  predicate Settles(step: Step, key: Key) {
    (step.DoComplete? || step.DoRetry? || step.DoDeadLetter?) && step.key == key
  }

  function One(condition: bool): nat {
    if condition then 1 else 0
  }

  /** How often the run settles the job. */
  function Settlements(w: World, steps: seq<Step>, key: Key): nat {
    if steps == [] then 0
    else
      var front, last := steps[..|steps| - 1], steps[|steps| - 1];
      Settlements(w, front, key) + One(Settles(last, key) && Apply(Run(w, front), last) != Run(w, front))
  }

  /** How often the run takes the job from a lease that has ended, by another claim or by the recovery. */
  function Losses(w: World, steps: seq<Step>, key: Key): nat {
    if steps == [] then 0
    else
      var front, last := steps[..|steps| - 1], steps[|steps| - 1];
      Losses(w, front, key)
      + One((last.DoClaim? || last.DoRecover?) && last.key == key && IsLeased(Run(w, front), key) && Apply(Run(w, front), last) != Run(w, front))
  }

  /** Conservation of claims: each is settled once, or lost to the end of its lease, or still held. */
  lemma {:induction false} ClaimsConserved(w: World, steps: seq<Step>, key: Key)
    requires WellFormed(w.rows)
    ensures Claims(w, steps, key) + One(IsLeased(w, key))
         == Settlements(w, steps, key) + Losses(w, steps, key) + One(IsLeased(Run(w, steps), key))
  {
    hide Run, WellFormed, WellFormedRow, Apply;
    if steps == [] {
      RunNothing(w);
    } else {
      var front := steps[..|steps| - 1];
      ClaimsConserved(w, front, key);
      RunWellFormed(w, front);
      RunLast(w, steps);
      LeaseStep(Run(w, front), steps[|steps| - 1], key);
    }
  }

  lemma LeaseStep(w: World, step: Step, key: Key)
    requires WellFormed(w.rows)
    ensures var moved := Apply(w, step) != w;
            One(step.DoClaim? && step.key == key && moved) + One(IsLeased(w, key))
            == One(Settles(step, key) && moved)
               + One((step.DoClaim? || step.DoRecover?) && step.key == key && IsLeased(w, key) && moved)
               + One(IsLeased(Apply(w, step), key))
  {
    match step
    case DoHeartbeat(k, worker, _) =>
    case DoComplete(k, worker) => UpdateMoves(w, step);
    case DoRetry(k, worker, _, _) => UpdateMoves(w, step);
    case DoDeadLetter(k, worker, _) => UpdateMoves(w, step);
    case DoClaim(k, worker, _) => ClaimMoves(w, step);
    case DoRecover(k) =>
      if IsLeased(w, k) {
        RecoverMoves(w, step);
      }
    case _ =>
  }

  lemma UpdateMoves(w: World, step: Step)
    requires step.DoComplete? || step.DoRetry? || step.DoDeadLetter?
    ensures Apply(w, step) != w <==> step.key in w.rows && OwnedBy(w.rows[step.key], step.worker)
  {
    if step.key in w.rows && OwnedBy(w.rows[step.key], step.worker) {
      assert Apply(w, step).rows[step.key].status != LEASED;
    }
  }

  lemma ClaimMoves(w: World, step: Step)
    requires step.DoClaim?
    ensures Apply(w, step) != w <==> step.key in w.rows && Claimable(w.rows[step.key], w.now)
  {
    if step.key in w.rows && Claimable(w.rows[step.key], w.now) {
      assert Apply(w, step).rows[step.key].attempts == w.rows[step.key].attempts + 1;
    }
  }

  lemma RecoverMoves(w: World, step: Step)
    requires step.DoRecover? && IsLeased(w, step.key)
    ensures Apply(w, step) != w <==> !LeaseActive(w.rows[step.key], w.now)
  {
    if !LeaseActive(w.rows[step.key], w.now) {
      assert Apply(w, step).rows[step.key].status == PENDING;
    }
  }

  /** When the lease ends: as the worker's last heartbeat set it, or as it was. */
  function Deadline(w: World, steps: seq<Step>, key: Key, worker: string): real
    requires key in w.rows && w.rows[key].leaseExpiresAt.Some?
  {
    if steps == [] then w.rows[key].leaseExpiresAt.value
    else
      var front, last := steps[..|steps| - 1], steps[|steps| - 1];
      if last.DoHeartbeat? && last.key == key && last.worker == worker then Run(w, front).now + last.leaseSeconds as real
      else Deadline(w, front, key, worker)
  }

  /** The lease never ends before the worker's next heartbeat. */
  predicate InTime(w: World, steps: seq<Step>, key: Key, worker: string)
    requires key in w.rows && w.rows[key].leaseExpiresAt.Some?
  {
    Run(w, steps).now < Deadline(w, steps, key, worker)
    && (steps == [] || InTime(w, steps[..|steps| - 1], key, worker))
  }

  /**
   * While the owner's heartbeats come in time and it does not settle the job itself, no run of any
   * other workers, the recovery included, changes the row but for the end of its lease.
   */
  lemma {:induction false} LeaseHolds(w: World, steps: seq<Step>, key: Key, worker: string)
    requires key in w.rows && OwnedBy(w.rows[key], worker) && w.rows[key].leaseExpiresAt.Some?
    requires InTime(w, steps, key, worker)
    requires forall s :: s in steps && Settles(s, key) ==> s.worker != worker
    ensures key in Run(w, steps).rows
    ensures Run(w, steps).rows[key] == w.rows[key].(leaseExpiresAt := Some(Deadline(w, steps, key, worker)))
  {
    hide Run, Apply;
    var row := w.rows[key];
    if steps == [] {
      RunNothing(w);
      assert row.(leaseExpiresAt := Some(row.leaseExpiresAt.value)) == row;
    } else {
      var front, last := steps[..|steps| - 1], steps[|steps| - 1];
      LeaseHolds(w, front, key, worker);
      RunLast(w, steps);
      assert last in steps;
      HeldStep(Run(w, front), last, key, worker);
      assert Run(w, steps).rows[key] == row.(leaseExpiresAt := Some(Deadline(w, steps, key, worker)));
    }
  }

  lemma HeldStep(w: World, step: Step, key: Key, worker: string)
    requires key in w.rows && OwnedBy(w.rows[key], worker)
    requires w.rows[key].leaseExpiresAt.Some? && w.now < w.rows[key].leaseExpiresAt.value
    requires Settles(step, key) ==> step.worker != worker
    ensures key in Apply(w, step).rows
    ensures Apply(w, step).rows[key] ==
              if step.DoHeartbeat? && step.key == key && step.worker == worker
              then w.rows[key].(leaseExpiresAt := Some(w.now + step.leaseSeconds as real))
              else w.rows[key]
  {
  }

  /**
   * The exception to "every job ends": a row whose last attempt's owner is gone is never claimed
   * again and never dead-lettered; without recovery it stays leased for ever.
   */
  lemma {:induction false} LostLastAttemptStays(w: World, steps: seq<Step>, key: Key)
    requires WellFormed(w.rows) && key in w.rows && w.rows[key].status == LEASED
    requires w.rows[key].attempts == w.rows[key].maximumAttempts
    requires DoRecover(key) !in steps && forall s :: s in steps ==> Actor(s) != w.rows[key].leaseOwner
    ensures key in Run(w, steps).rows && Run(w, steps).rows[key] == w.rows[key]
  {
    hide Run;
    if steps == [] {
      RunNothing(w);
    } else {
      LostLastAttemptStays(w, steps[..|steps| - 1], key);
      RunLast(w, steps);
      assert steps[|steps| - 1] in steps;
    }
  }

  /** While attempts remain, an expired lease does not lose the job: it can be claimed again. */
  lemma ExpiredIsClaimable(w: World, key: Key, worker: string, seconds: int)
    requires WellFormed(w.rows) && key in w.rows && w.rows[key].status == LEASED
    requires Expired(w.rows[key], w.now) && w.rows[key].availableAt <= w.now
    ensures Apply(w, DoClaim(key, worker, seconds)).rows[key].leaseOwner == Some(worker)
         && Apply(w, DoClaim(key, worker, seconds)).rows[key].attempts == w.rows[key].attempts + 1
       <==> w.rows[key].attempts < w.rows[key].maximumAttempts
  {
  }
}
