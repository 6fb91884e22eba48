/** The worker's job repository over the job rows, and the processing of one claimed job. */
module DurableJobs {
  import opened Results
  import opened JobRows
  import opened RetryDelay
  import T = Text

  const SUPPORTED: seq<string> := [
    "APPLICATION_NOTIFICATION", "APPLICATION_DEADLINE", "TENANT_PROVISION", "TENANT_READINESS", "TENANT_ACTIVATION",
    "CERTIFICATE_MONITOR", "DOCUMENT_SCAN", "DOCUMENT_CANONICALIZE", "IDENTITY_STATUS_POLL", "SIGNATURE_CREATE",
    "SIGNATURE_VALIDATE", "PADES_CREATE", "PADES_VALIDATE", "TIC_EVIDENCE_COLLECT", "EVIDENCE_PACKAGE_BUILD",
    "EMAIL_SEND", "WEBHOOK_DELIVER", "REMINDER_SEND", "CASE_EXPIRE", "ARCHIVE_EXPORT", "RETENTION_EXECUTE",
    "PRIVACY_REQUEST_EXECUTE"]

  const NOT_CLAIMED := "WORKER_JOB_NOT_CLAIMED_BY_PROCESS"
  const LEASE_LOST := "WORKER_LEASE_LOST"
  const JOB_ID_INVALID := "WORKER_JOB_ID_INVALID"
  const WORKER_ID_INVALID := "WORKER_ID_INVALID"
  const CLAIM_LIMIT_INVALID := "WORKER_CLAIM_LIMIT_INVALID"
  const LEASE_SECONDS_INVALID := "WORKER_LEASE_SECONDS_INVALID"
  const TYPE_UNSUPPORTED := "WORKER_JOB_TYPE_UNSUPPORTED"

  datatype Job = Job(id: string, tenantId: string, jobType: string, attempts: int, maximumAttempts: int)

  predicate IsAlphanumeric(c: char) {
    '0' <= c <= '9' || 'a' <= c <= 'z' || 'A' <= c <= 'Z'
  }

  /** /^[A-Za-z0-9._:-]{3,200}$/ */
  predicate IsWorkerId(worker: string) {
    3 <= |worker| <= 200 && forall c :: c in worker ==> IsAlphanumeric(c) || c in "._:-"
  }

  /** /^[0-9a-f-]{36}$/i */
  predicate IsJobId(id: string) {
    |id| == 36 && forall c :: c in id ==> '0' <= c <= '9' || 'a' <= c <= 'f' || 'A' <= c <= 'F' || c == '-'
  }

  function CheckClaim(worker: string, limit: int, leaseSeconds: int): Option<string> {
    if !IsWorkerId(worker) then Some(WORKER_ID_INVALID)
    else if limit < 1 || limit > 1000 then Some(CLAIM_LIMIT_INVALID)
    else if leaseSeconds < 5 || leaseSeconds > 3600 then Some(LEASE_SECONDS_INVALID)
    else None
  }

  /* ---- Error codes ---- */

  predicate IsCodeUnit(c: char) {
    IsAlphanumeric(c) || c == '_' || c == ':' || c == '-'
  }

  /** replace(/[^A-Za-z0-9_:-]/g, '_'), code unit by code unit: a character beyond the basic plane is two of them. */
  function Replaced(code: string): (r: string)
    ensures |r| >= |code| && forall c :: c in r ==> IsCodeUnit(c)
  {
    if code == [] then []
    else (if IsCodeUnit(code[0]) then [code[0]] else if code[0] as int < 0x1_0000 then "_" else "__") + Replaced(code[1..])
  }

  /** cleanErrorCode. */
  function CleanErrorCode(code: string): string {
    var r := Replaced(code);
    if r == [] then "WORKER_ERROR" else if |r| > 120 then r[..120] else r
  }

  predicate IsCleanCode(code: string) {
    1 <= |code| <= 120 && forall c :: c in code ==> IsCodeUnit(c)
  }

  lemma {:induction false} ReplacedKeeps(code: string)
    ensures Replaced(code) == code <==> forall c :: c in code ==> IsCodeUnit(c)
  {
    hide IsCodeUnit;
    if code != [] {
      ReplacedKeeps(code[1..]);
      assert code == [code[0]] + code[1..];
    }
  }

  /** A stored code is never empty, at most 120 characters of the safe alphabet, and unchanged exactly if it was that. */
  lemma CleanedIsClean(code: string)
    ensures IsCleanCode(CleanErrorCode(code))
    ensures CleanErrorCode(code) == code <==> IsCleanCode(code)
  {
    hide Replaced, IsCodeUnit;
    ReplacedKeeps(code);
    FallbackClean();
  }

  lemma FallbackClean()
    ensures IsCleanCode("WORKER_ERROR")
  {
  }

  /* ---- Claiming ---- */

  /** The claimable rows among those the database looks at, at most limit of them, one after another. */
  function Picked(rows: Rows, tenant: string, candidates: seq<string>, now: real, limit: int): seq<string>
    decreases |candidates|
  {
    if candidates == [] || limit <= 0 then []
    else
      var id := candidates[0];
      if Key(tenant, id) in rows && Claimable(rows[Key(tenant, id)], now) && id !in candidates[1..]
      then [id] + Picked(rows, tenant, candidates[1..], now, limit - 1)
      else Picked(rows, tenant, candidates[1..], now, limit)
  }

  function LeaseAll(rows: Rows, tenant: string, ids: seq<string>, worker: string, now: real, seconds: int): Rows {
    if ids == [] then rows
    else Claim(LeaseAll(rows, tenant, ids[..|ids| - 1], worker, now, seconds), Key(tenant, ids[|ids| - 1]), worker, now, seconds)
  }

  lemma {:induction false} PickedClaimable(rows: Rows, tenant: string, candidates: seq<string>, now: real, limit: int)
    ensures var ids := Picked(rows, tenant, candidates, now, limit);
            && |ids| <= (if limit < 0 then 0 else limit)
            && (forall i, j :: 0 <= i < j < |ids| ==> ids[i] != ids[j])
            && forall i :: 0 <= i < |ids| ==> ids[i] in candidates && Key(tenant, ids[i]) in rows && Claimable(rows[Key(tenant, ids[i])], now)
    decreases |candidates|
  {
    hide Claimable;
    if candidates != [] && limit > 0 {
      PickedClaimable(rows, tenant, candidates[1..], now, limit - 1);
      PickedClaimable(rows, tenant, candidates[1..], now, limit);
    }
  }

  /** Leasing distinct claimable rows gives each of them to the worker, with one more attempt. */
  lemma {:induction false} LeaseAllLeases(rows: Rows, tenant: string, ids: seq<string>, worker: string, now: real, seconds: int)
    requires forall i, j :: 0 <= i < j < |ids| ==> ids[i] != ids[j]
    requires forall i :: 0 <= i < |ids| ==> Key(tenant, ids[i]) in rows && Claimable(rows[Key(tenant, ids[i])], now)
    ensures var after := LeaseAll(rows, tenant, ids, worker, now, seconds);
            && after.Keys == rows.Keys
            && (forall i :: 0 <= i < |ids| ==> after[Key(tenant, ids[i])] == Leased(rows[Key(tenant, ids[i])], worker, now, seconds))
            && forall k :: k in rows && !(k.tenantId == tenant && k.id in ids) ==> after[k] == rows[k]
  {
    hide Claimable, Leased, Claim, LeaseAll;
    LeaseAllLast(rows, tenant, ids, worker, now, seconds);
    if ids != [] {
      var front, last := ids[..|ids| - 1], ids[|ids| - 1];
      var before, key := LeaseAll(rows, tenant, front, worker, now, seconds), Key(tenant, last);
      assert forall i :: 0 <= i < |front| ==> front[i] == ids[i];
      LeaseAllLeases(rows, tenant, front, worker, now, seconds);
      assert last !in front;
      assert before[key] == rows[key];
      ClaimTakes(before, key, worker, now, seconds);
      forall k | k in rows && !(k.tenantId == tenant && k.id in ids) ensures before[k] == rows[k] && k != key {
        assert k.tenantId == tenant && k.id in front ==> k.id in ids;
      }
    }
  }

  lemma LeaseAllLast(rows: Rows, tenant: string, ids: seq<string>, worker: string, now: real, seconds: int)
    ensures ids == [] ==> LeaseAll(rows, tenant, ids, worker, now, seconds) == rows
    ensures ids != [] ==>
              LeaseAll(rows, tenant, ids, worker, now, seconds)
              == Claim(LeaseAll(rows, tenant, ids[..|ids| - 1], worker, now, seconds), Key(tenant, ids[|ids| - 1]), worker, now, seconds)
  {
    hide Claim;
  }

  lemma ClaimTakes(rows: Rows, key: Key, worker: string, now: real, seconds: int)
    requires key in rows && Claimable(rows[key], now)
    ensures Claim(rows, key, worker, now, seconds) == rows[key := Leased(rows[key], worker, now, seconds)]
  {
  }

  class Store {
    var rows: Rows
    var now: real

    constructor (start: real)
      ensures rows == map[] && now == start
    {
      rows, now := map[], start;
    }

    /**
     * app.claim_durable_jobs: the candidates and their order are the database's choice (rows locked
     * by other transactions are skipped); the guards are checked here.
     */
    method ClaimDurableJobs(tenant: string, worker: string, limit: int, seconds: int, candidates: seq<string>)
      returns (ids: seq<string>)
      modifies this`rows
      ensures ids == Picked(old(rows), tenant, candidates, now, limit)
      ensures rows == LeaseAll(old(rows), tenant, ids, worker, now, seconds)
    {
      hide Picked, Claim;
      ids := Picked(rows, tenant, candidates, now, limit);
      ghost var start := rows;
      for i := 0 to |ids|
        invariant rows == LeaseAll(start, tenant, ids[..i], worker, now, seconds)
      {
        assert ids[..i + 1][..i] == ids[..i];
        rows := Claim(rows, Key(tenant, ids[i]), worker, now, seconds);
      }
      assert ids[..|ids|] == ids;
    }
  }

  class Repository {
    const store: Store
    var claimedTenants: map<string, string>

    constructor (store: Store)
      ensures this.store == store && claimedTenants == map[]
    {
      this.store := store;
      claimedTenants := map[];
    }

    /** Whether a statement about a claimed job may run; the tenant it runs for. */
    function ClaimedTenant(jobId: string, worker: string): Result<string>
      reads this
    {
      if jobId !in claimedTenants || claimedTenants[jobId] == "" then Err(NOT_CLAIMED)
      else if !IsJobId(jobId) then Err(JOB_ID_INVALID)
      else if worker == "" then Err(WORKER_ID_INVALID)
      else Ok(claimedTenants[jobId])
    }

    /** The jobs of one tenant, remembered as this process's. */
    method ClaimTenant(tenant: string, worker: string, limit: int, seconds: int, candidates: seq<string>)
      returns (r: Result<seq<Job>>)
      modifies this`claimedTenants, store`rows
      ensures var ids := Picked(old(store.rows), tenant, candidates, store.now, limit);
              && store.rows == LeaseAll(old(store.rows), tenant, ids, worker, store.now, seconds)
              && (r.Ok? ==> |r.value| == |ids| && forall i :: 0 <= i < |ids| ==>
                   && r.value[i].id == ids[i] && r.value[i].tenantId == tenant
                   && Key(tenant, ids[i]) in store.rows
                   && r.value[i].attempts == store.rows[Key(tenant, ids[i])].attempts
                   && r.value[i].maximumAttempts == store.rows[Key(tenant, ids[i])].maximumAttempts
                   && ids[i] in claimedTenants && claimedTenants[ids[i]] == tenant)
      ensures forall id :: id in old(claimedTenants) ==> id in claimedTenants
    {
      hide Picked, LeaseAll, Leased, Claimable;
      PickedClaimable(store.rows, tenant, candidates, store.now, limit);
      ghost var before := store.rows;
      var ids := store.ClaimDurableJobs(tenant, worker, limit, seconds, candidates);
      LeaseAllLeases(before, tenant, ids, worker, store.now, seconds);
      var jobs: seq<Job> := [];
      for i := 0 to |ids|
        invariant store.rows == LeaseAll(before, tenant, ids, worker, store.now, seconds) && |jobs| == i
        invariant forall j :: 0 <= j < i ==>
                    && jobs[j].id == ids[j] && jobs[j].tenantId == tenant
                    && jobs[j].attempts == store.rows[Key(tenant, ids[j])].attempts
                    && jobs[j].maximumAttempts == store.rows[Key(tenant, ids[j])].maximumAttempts
                    && ids[j] in claimedTenants && claimedTenants[ids[j]] == tenant
        invariant forall id :: id in old(claimedTenants) ==> id in claimedTenants
      {
        var row := store.rows[Key(tenant, ids[i])];
        if row.jobType !in SUPPORTED {
          return Err(TYPE_UNSUPPORTED);
        }
        claimedTenants := claimedTenants[ids[i] := tenant];
        jobs := jobs + [Job(ids[i], tenant, row.jobType, row.attempts, row.maximumAttempts)];
      }
      r := Ok(jobs);
    }

    /** Completes the job if this process claimed it and the worker still holds its lease. */
    method CompleteJob(jobId: string, worker: string) returns (r: Result<()>)
      modifies this`claimedTenants, store`rows
      ensures match old(ClaimedTenant(jobId, worker))
              case Err(e) => r == Err(e) && store.rows == old(store.rows) && claimedTenants == old(claimedTenants)
              case Ok(tenant) =>
                && r == Ok(())
                && store.rows == Complete(old(store.rows), Key(tenant, jobId), worker)
                && claimedTenants == old(claimedTenants) - {jobId}
    {
      var tenant := ClaimedTenant(jobId, worker);
      if tenant.Err? {
        return Err(tenant.code);
      }
      store.rows := Complete(store.rows, Key(tenant.value, jobId), worker);
      claimedTenants := claimedTenants - {jobId};
      r := Ok(());
    }

    method RetryJob(jobId: string, worker: string, nextAvailableAt: real, code: string) returns (r: Result<()>)
      modifies this`claimedTenants, store`rows
      ensures match old(ClaimedTenant(jobId, worker))
              case Err(e) => r == Err(e) && store.rows == old(store.rows) && claimedTenants == old(claimedTenants)
              case Ok(tenant) =>
                && r == Ok(())
                && store.rows == Retry(old(store.rows), Key(tenant, jobId), worker, nextAvailableAt, CleanErrorCode(code))
                && claimedTenants == old(claimedTenants) - {jobId}
    {
      var tenant := ClaimedTenant(jobId, worker);
      if tenant.Err? {
        return Err(tenant.code);
      }
      store.rows := Retry(store.rows, Key(tenant.value, jobId), worker, nextAvailableAt, CleanErrorCode(code));
      claimedTenants := claimedTenants - {jobId};
      r := Ok(());
    }

    method DeadLetterJob(jobId: string, worker: string, code: string) returns (r: Result<()>)
      modifies this`claimedTenants, store`rows
      ensures match old(ClaimedTenant(jobId, worker))
              case Err(e) => r == Err(e) && store.rows == old(store.rows) && claimedTenants == old(claimedTenants)
              case Ok(tenant) =>
                && r == Ok(())
                && store.rows == DeadLetter(old(store.rows), Key(tenant, jobId), worker, CleanErrorCode(code))
                && claimedTenants == old(claimedTenants) - {jobId}
    {
      var tenant := ClaimedTenant(jobId, worker);
      if tenant.Err? {
        return Err(tenant.code);
      }
      store.rows := DeadLetter(store.rows, Key(tenant.value, jobId), worker, CleanErrorCode(code));
      claimedTenants := claimedTenants - {jobId};
      r := Ok(());
    }

    /** Extends the lease, and reports a lease that the worker no longer holds. */
    method HeartbeatJob(jobId: string, worker: string, seconds: int) returns (r: Result<()>)
      modifies store`rows
      ensures match ClaimedTenant(jobId, worker)
              case Err(e) => r.Err? && store.rows == old(store.rows)
              case Ok(tenant) =>
                && (r.Ok? <==> CheckClaim(worker, 1, seconds) == None
                                && Key(tenant, jobId) in old(store.rows) && OwnedBy(old(store.rows)[Key(tenant, jobId)], worker))
                && (store.rows == if r.Ok? then Heartbeat(old(store.rows), Key(tenant, jobId), worker, store.now, seconds)
                                  else old(store.rows))
    {
      if jobId !in claimedTenants || claimedTenants[jobId] == "" {
        return Err(NOT_CLAIMED);
      }
      var invalid := CheckClaim(worker, 1, seconds);
      if invalid.Some? {
        return Err(invalid.value);
      }
      var tenant := ClaimedTenant(jobId, worker);
      if tenant.Err? {
        return Err(tenant.code);
      }
      var key := Key(tenant.value, jobId);
      if key !in store.rows || !OwnedBy(store.rows[key], worker) {
        return Err(LEASE_LOST);
      }
      store.rows := Heartbeat(store.rows, key, worker, store.now, seconds);
      r := Ok(());
    }
  }

  /* ---- Claiming over all tenants ---- */

  /** The jobs are this worker's: leased to it, with the attempt of this lease. */
  ghost predicate Held(rows: Rows, jobs: seq<Job>, worker: string) {
    forall job :: job in jobs ==>
      && Key(job.tenantId, job.id) in rows
      && OwnedBy(rows[Key(job.tenantId, job.id)], worker)
      && rows[Key(job.tenantId, job.id)].attempts == job.attempts >= 1
      && rows[Key(job.tenantId, job.id)].maximumAttempts == job.maximumAttempts >= job.attempts
  }

  /** Leasing further rows takes none of the leases just given: they are still in the future. */
  lemma HeldKept(before: Rows, tenant: string, candidates: seq<string>, worker: string, now: real, limit: int, seconds: int, jobs: seq<Job>)
    requires Held(before, jobs, worker)
    requires forall job :: job in jobs ==> !Claimable(before[Key(job.tenantId, job.id)], now)
    ensures var after := LeaseAll(before, tenant, Picked(before, tenant, candidates, now, limit), worker, now, seconds);
            && Held(after, jobs, worker)
            && forall job :: job in jobs ==> !Claimable(after[Key(job.tenantId, job.id)], now)
  {
    hide Picked, LeaseAll, Leased;
    var ids := Picked(before, tenant, candidates, now, limit);
    PickedClaimable(before, tenant, candidates, now, limit);
    LeaseAllLeases(before, tenant, ids, worker, now, seconds);
    var after := LeaseAll(before, tenant, ids, worker, now, seconds);
    forall job | job in jobs ensures after[Key(job.tenantId, job.id)] == before[Key(job.tenantId, job.id)] {
      forall i | 0 <= i < |ids| ensures Key(tenant, ids[i]) != Key(job.tenantId, job.id) {
        assert Claimable(before[Key(tenant, ids[i])], now);
      }
    }
  }

  lemma NewlyHeld(before: Rows, tenant: string, candidates: seq<string>, worker: string, now: real, limit: int, seconds: int, jobs: seq<Job>)
    requires WellFormed(before) && seconds >= 5
    requires var ids := Picked(before, tenant, candidates, now, limit);
             var after := LeaseAll(before, tenant, ids, worker, now, seconds);
             |jobs| == |ids| && forall i :: 0 <= i < |ids| ==>
               && jobs[i].id == ids[i] && jobs[i].tenantId == tenant && Key(tenant, ids[i]) in after
               && jobs[i].attempts == after[Key(tenant, ids[i])].attempts
               && jobs[i].maximumAttempts == after[Key(tenant, ids[i])].maximumAttempts
    ensures var after := LeaseAll(before, tenant, Picked(before, tenant, candidates, now, limit), worker, now, seconds);
            && WellFormed(after) && Held(after, jobs, worker)
            && forall job :: job in jobs ==> !Claimable(after[Key(job.tenantId, job.id)], now)
  {
    hide Picked, LeaseAll;
    var ids := Picked(before, tenant, candidates, now, limit);
    PickedClaimable(before, tenant, candidates, now, limit);
    LeaseAllLeases(before, tenant, ids, worker, now, seconds);
    var after := LeaseAll(before, tenant, ids, worker, now, seconds);
    forall k | k in after ensures WellFormedRow(after[k]) {
      if k.tenantId == tenant && k.id in ids {
        var i :| 0 <= i < |ids| && ids[i] == k.id;
        assert k == Key(tenant, ids[i]);
      }
    }
  }

  /**
   * Claims up to limit jobs over the tenants in turn. Every returned job is leased to the worker, its
   * attempts count this claim, and no job is returned beyond the limit.
   */
  method ClaimJobs(repository: Repository, tenants: seq<string>, worker: string, limit: int, seconds: int, candidates: string -> seq<string>)
    returns (r: Result<seq<Job>>)
    requires WellFormed(repository.store.rows)
    modifies repository`claimedTenants, repository.store`rows
    ensures WellFormed(repository.store.rows)
    ensures CheckClaim(worker, limit, seconds).Some? ==> r == Err(CheckClaim(worker, limit, seconds).value) && repository.store.rows == old(repository.store.rows)
    ensures r.Ok? ==> |r.value| <= limit && Held(repository.store.rows, r.value, worker)
  {
    hide Picked, LeaseAll, Claimable, WellFormed;
    var invalid := CheckClaim(worker, limit, seconds);
    if invalid.Some? {
      return Err(invalid.value);
    }
    var jobs: seq<Job> := [];
    for t := 0 to |tenants|
      invariant WellFormed(repository.store.rows)
      invariant |jobs| <= limit && Held(repository.store.rows, jobs, worker)
      invariant forall job :: job in jobs ==> !Claimable(repository.store.rows[Key(job.tenantId, job.id)], repository.store.now)
    {
      if |jobs| >= limit {
        break;
      }
      ghost var before := repository.store.rows;
      var tenant, remaining := tenants[t], limit - |jobs|;
      PickedClaimable(before, tenant, candidates(tenant), repository.store.now, remaining);
      HeldKept(before, tenant, candidates(tenant), worker, repository.store.now, remaining, seconds, jobs);
      var claimed := repository.ClaimTenant(tenant, worker, remaining, seconds, candidates(tenant));
      LeasedWellFormed(before, tenant, candidates(tenant), worker, repository.store.now, remaining, seconds);
      if claimed.Err? {
        return Err(claimed.code);
      }
      NewlyHeld(before, tenant, candidates(tenant), worker, repository.store.now, remaining, seconds, claimed.value);
      jobs := jobs + claimed.value;
    }
    r := Ok(jobs);
  }

  lemma LeasedWellFormed(before: Rows, tenant: string, candidates: seq<string>, worker: string, now: real, limit: int, seconds: int)
    requires WellFormed(before)
    ensures WellFormed(LeaseAll(before, tenant, Picked(before, tenant, candidates, now, limit), worker, now, seconds))
  {
    hide Picked, LeaseAll;
    var ids := Picked(before, tenant, candidates, now, limit);
    PickedClaimable(before, tenant, candidates, now, limit);
    LeaseAllLeases(before, tenant, ids, worker, now, seconds);
    var after := LeaseAll(before, tenant, ids, worker, now, seconds);
    forall k | k in after ensures WellFormedRow(after[k]) {
      if k.tenantId == tenant && k.id in ids {
        var i :| 0 <= i < |ids| && ids[i] == k.id;
        assert k == Key(tenant, ids[i]);
      }
    }
  }

  /* ---- Processing ---- */

  /** How a handler ends: by returning, or by throwing an error with this code. */
  datatype Outcome = Returned | Threw(permanent: bool, code: string)

  /** Whether a failed attempt is the job's last. */
  predicate IsDead(job: Job, outcome: Outcome) {
    (outcome.Threw? && outcome.permanent) || job.attempts >= job.maximumAttempts
  }

  /** What the end of an attempt does to the job's row, if the worker still holds its lease. */
  function Settled(rows: Rows, key: Key, worker: string, job: Job, outcome: Outcome, now: real): Rows {
    match outcome
    case Returned => Complete(rows, key, worker)
    case Threw(_, code) =>
      if IsDead(job, outcome) then DeadLetter(rows, key, worker, CleanErrorCode(code))
      else Retry(rows, key, worker, now + Delay(Characters(job.id), job.attempts), CleanErrorCode(code))
  }

  function Characters(s: string): (t: T.Text)
    ensures |t| == |s|
  {
    T.Lit(s)
  }

  /** The state of the database and of this process when a handler ends. */
  datatype Moment = Moment(rows: Rows, claimedTenants: map<string, string>, now: real)

  /** A handler runs; meanwhile every other process, and this one, may change anything. */
  method RunHandler(repository: Repository) returns (ghost moment: Moment)
    modifies repository`claimedTenants, repository.store
    ensures moment == Moment(repository.store.rows, repository.claimedTenants, repository.store.now)
  {
    repository.claimedTenants := *;
    repository.store.rows := *;
    repository.store.now := *;
    moment := Moment(repository.store.rows, repository.claimedTenants, repository.store.now);
  }

  /** Records the end of an attempt; an error of the completing statement counts as a failure of the attempt. */
  method Settle(repository: Repository, worker: string, job: Job, outcome: Outcome) returns (r: Result<()>)
    modifies repository`claimedTenants, repository.store`rows
    ensures match old(repository.ClaimedTenant(job.id, worker))
            case Err(e) => r == Err(e) && repository.store.rows == old(repository.store.rows)
            case Ok(tenant) =>
              && r == Ok(())
              && repository.store.rows == Settled(old(repository.store.rows), Key(tenant, job.id), worker, job, outcome, repository.store.now)
  {
    hide Complete, DeadLetter, Retry, Delay, CleanErrorCode;
    if outcome == Returned {
      r := repository.CompleteJob(job.id, worker);
      if r.Err? {
        r := Fail(repository, worker, job, Threw(false, r.code));
      }
    } else {
      r := Fail(repository, worker, job, outcome);
    }
  }

  method Fail(repository: Repository, worker: string, job: Job, outcome: Outcome) returns (r: Result<()>)
    requires outcome.Threw?
    modifies repository`claimedTenants, repository.store`rows
    ensures match old(repository.ClaimedTenant(job.id, worker))
            case Err(e) => r == Err(e) && repository.store.rows == old(repository.store.rows)
            case Ok(tenant) =>
              && r == Ok(())
              && repository.store.rows == Settled(old(repository.store.rows), Key(tenant, job.id), worker, job, outcome, repository.store.now)
  {
    hide Delay, CleanErrorCode;
    if IsDead(job, outcome) {
      r := repository.DeadLetterJob(job.id, worker, outcome.code);
    } else {
      var delay := JitteredRetryDelaySeconds(Characters(job.id), job.attempts);
      r := repository.RetryJob(job.id, worker, repository.store.now + delay, outcome.code);
    }
  }

  /**
   * Processes one claimed job: a heartbeat first, then the handler, whose end is recorded. A worker
   * that has lost the lease does not run the handler and changes nothing.
   */
  method ProcessClaimedJob(repository: Repository, worker: string, job: Job, outcome: Outcome)
    returns (r: Result<()>, ghost ran: bool, ghost moment: Moment)
    modifies repository`claimedTenants, repository.store
    ensures worker == "" || job.attempts < 1 ==> r.Err? && !ran && repository.store.rows == old(repository.store.rows)
    ensures ran ==> match TenantAt(moment, job.id, worker)
                    case Err(e) => r == Err(e) && repository.store.rows == moment.rows
                    case Ok(tenant) =>
                      && r == Ok(())
                      && repository.store.rows == Settled(moment.rows, Key(tenant, job.id), worker, job, outcome, moment.now)
    ensures !ran && IsWorkerId(worker) ==> repository.store.rows == old(repository.store.rows)
  {
    hide Delay, CleanErrorCode;
    ran := false;
    moment := Moment(repository.store.rows, repository.claimedTenants, repository.store.now);
    if worker == "" {
      return Err("Worker identity is required"), false, moment;
    }
    if job.attempts < 1 {
      return Err("Claimed jobs must include the current attempt"), false, moment;
    }
    var alive := repository.HeartbeatJob(job.id, worker, 60);
    if alive.Err? {
      r := Settle(repository, worker, job, Threw(false, alive.code));
      return;
    }
    moment := RunHandler(repository);
    ran := true;
    r := Settle(repository, worker, job, outcome);
  }

  ghost function TenantAt(moment: Moment, jobId: string, worker: string): Result<string> {
    if jobId !in moment.claimedTenants || moment.claimedTenants[jobId] == "" then Err(NOT_CLAIMED)
    else if !IsJobId(jobId) then Err(JOB_ID_INVALID)
    else if worker == "" then Err(WORKER_ID_INVALID)
    else Ok(moment.claimedTenants[jobId])
  }

  /**
   * Settling ends the attempt and moves only the worker's own leased row: completed, dead-lettered on
   * a permanent error or the last attempt, otherwise pending again after half to one base delay.
   */
  lemma SettledMoves(rows: Rows, key: Key, worker: string, job: Job, outcome: Outcome, now: real)
    requires key in rows && WellFormedRow(rows[key])
    requires rows[key].attempts == job.attempts && rows[key].maximumAttempts == job.maximumAttempts
    ensures var after := Settled(rows, key, worker, job, outcome, now);
            && after.Keys == rows.Keys
            && (forall k :: k in rows && k != key ==> after[k] == rows[k])
            && (!OwnedBy(rows[key], worker) ==> after == rows)
            && (OwnedBy(rows[key], worker) ==>
                 && WellFormedRow(after[key]) && after[key].leaseOwner == None && after[key].attempts == job.attempts
                 && (after[key].status == COMPLETED <==> outcome == Returned)
                 && (after[key].status == DEAD_LETTER <==> outcome.Threw? && IsDead(job, outcome))
                 && (outcome.Threw? ==> after[key].lastErrorCode.Some? && IsCleanCode(after[key].lastErrorCode.value))
                 && (after[key].status == PENDING ==>
                      && job.attempts < job.maximumAttempts
                      && now + RetryDelaySeconds(job.attempts) as real / 2.0 <= after[key].availableAt
                      && after[key].availableAt <= now + RetryDelaySeconds(job.attempts) as real))
  {
    hide Delay, RetryDelaySeconds, CleanErrorCode, IsCleanCode;
    DelayBounds(Characters(job.id), job.attempts);
    if outcome.Threw? {
      CleanedIsClean(outcome.code);
    }
  }
}
