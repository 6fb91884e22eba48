/** What each statement of the job repository does to its row, and what the end of an attempt comes to. */
module JobRules {
  import opened Results
  import opened JobRows
  import opened DurableJobs
  import opened RetryDelay

  /** The row is leased to this worker. */
  predicate HeldBy(rows: Rows, key: Key, worker: string) {
    key in rows && rows[key].status == LEASED && rows[key].leaseOwner == Some(worker)
  }

  /** A job is given out exactly if it is due, has attempts left, and is pending or leased beyond its time. */
  lemma ClaimEffect(rows: Rows, key: Key, worker: string, now: real, seconds: int)
    ensures Claim(rows, key, worker, now, seconds) ==
              if key in rows && rows[key].availableAt <= now && rows[key].attempts < rows[key].maximumAttempts
                 && (rows[key].status == PENDING
                     || (rows[key].status == LEASED && rows[key].leaseExpiresAt.Some? && rows[key].leaseExpiresAt.value < now))
              then rows[key := Row(LEASED, rows[key].jobType, rows[key].availableAt, rows[key].attempts + 1, rows[key].maximumAttempts,
                                   Some(worker), Some(now + seconds as real), rows[key].lastErrorCode)]
              else rows
  {
  }

  /** The statements of a worker about its own job; of any other row they change nothing. */
  lemma StatementEffects(rows: Rows, key: Key, worker: string, at: real, code: string, now: real, seconds: int)
    ensures !HeldBy(rows, key, worker) ==>
              && Complete(rows, key, worker) == rows && Retry(rows, key, worker, at, code) == rows
              && DeadLetter(rows, key, worker, code) == rows && Heartbeat(rows, key, worker, now, seconds) == rows
    ensures HeldBy(rows, key, worker) ==>
              var r := rows[key];
              && Complete(rows, key, worker)
                 == rows[key := Row(COMPLETED, r.jobType, r.availableAt, r.attempts, r.maximumAttempts, None, None, r.lastErrorCode)]
              && Retry(rows, key, worker, at, code)
                 == rows[key := Row(PENDING, r.jobType, at, r.attempts, r.maximumAttempts, None, None, Some(code))]
              && DeadLetter(rows, key, worker, code)
                 == rows[key := Row(DEAD_LETTER, r.jobType, r.availableAt, r.attempts, r.maximumAttempts, None, None, Some(code))]
              && Heartbeat(rows, key, worker, now, seconds)
                 == rows[key := Row(LEASED, r.jobType, r.availableAt, r.attempts, r.maximumAttempts, Some(worker), Some(now + seconds as real), r.lastErrorCode)]
  {
  }

  /** The provisioning recovery, which passes over live leases only. */
  lemma RecoverEffect(rows: Rows, key: Key, now: real)
    ensures Recover(rows, key, now) ==
              if key !in rows then rows
              else
                var r := rows[key];
                if r.status == LEASED && (r.leaseExpiresAt.None? || r.leaseExpiresAt.value > now) then rows
                else rows[key := Row(PENDING, r.jobType, now, if r.status == DEAD_LETTER then 0 else r.attempts, r.maximumAttempts, None, None, None)]
  {
  }

  /** The end of an attempt: completed, dead on a permanent error or the last attempt, else pending again. */
  lemma AttemptEffect(rows: Rows, key: Key, worker: string, job: Job, outcome: Outcome, now: real)
    requires HeldBy(rows, key, worker)
    ensures var (r, after) := (rows[key], Settled(rows, key, worker, job, outcome, now));
            match outcome
            case Returned => after == rows[key := Row(COMPLETED, r.jobType, r.availableAt, r.attempts, r.maximumAttempts, None, None, r.lastErrorCode)]
            case Threw(permanent, code) =>
              if permanent || job.attempts >= job.maximumAttempts then
                after == rows[key := Row(DEAD_LETTER, r.jobType, r.availableAt, r.attempts, r.maximumAttempts, None, None, Some(CleanErrorCode(code)))]
              else
                after == rows[key := Row(PENDING, r.jobType, now + Delay(Characters(job.id), job.attempts), r.attempts, r.maximumAttempts, None, None,
                                         Some(CleanErrorCode(code)))]
  {
    hide Delay, CleanErrorCode;
  }

  /** The checks of a claim, in order. */
  lemma ClaimChecks(worker: string, limit: int, seconds: int)
    ensures CheckClaim(worker, limit, seconds) ==
              if |worker| < 3 || |worker| > 200
                 || exists i :: 0 <= i < |worker| && !('0' <= worker[i] <= '9' || 'a' <= worker[i] <= 'z' || 'A' <= worker[i] <= 'Z'
                                                        || worker[i] == '.' || worker[i] == '_' || worker[i] == ':' || worker[i] == '-')
              then Some("WORKER_ID_INVALID")
              else if limit < 1 || limit > 1000 then Some("WORKER_CLAIM_LIMIT_INVALID")
              else if seconds < 5 || seconds > 3600 then Some("WORKER_LEASE_SECONDS_INVALID")
              else None
  {
    WorkerIdIs(worker);
  }

  lemma WorkerIdIs(worker: string)
    ensures IsWorkerId(worker) <==>
              3 <= |worker| <= 200
              && forall i :: 0 <= i < |worker| ==> '0' <= worker[i] <= '9' || 'a' <= worker[i] <= 'z' || 'A' <= worker[i] <= 'Z'
                                                   || worker[i] == '.' || worker[i] == '_' || worker[i] == ':' || worker[i] == '-'
  {
    forall c: char ensures c in "._:-" <==> c == '.' || c == '_' || c == ':' || c == '-' {
      FourCharacters(c);
    }
    if IsWorkerId(worker) {
      forall i | 0 <= i < |worker| ensures worker[i] in worker {
      }
    }
  }

  lemma FourCharacters(c: char)
    ensures c in "._:-" <==> c == '.' || c == '_' || c == ':' || c == '-'
  {
    assert "._:-"[0] == '.' && "._:-"[1] == '_' && "._:-"[2] == ':' && "._:-"[3] == '-';
  }

  /** cleanErrorCode, character by character. */
  lemma CleaningIs(c: char, rest: string)
    ensures Replaced([]) == []
    ensures Replaced([c] + rest) ==
              (if '0' <= c <= '9' || 'A' <= c <= 'Z' || 'a' <= c <= 'z' || c == '_' || c == ':' || c == '-' then [c]
               else if c as int < 0x1_0000 then ['_'] else ['_', '_']) + Replaced(rest)
    ensures var r := Replaced(rest);
            CleanErrorCode(rest) == if |r| == 0 then "WORKER_ERROR" else if |r| <= 120 then r else r[..120]
  {
    assert ([c] + rest)[1..] == rest;
  }
}
