/** The durable job table. Each method is one committed statement or one `FOR UPDATE`
    section; the functions of `Db` above it say what that section does to the rows. */
module JobTable {
  import opened Wrappers
  import opened Retries

  type JobId = nat

  datatype Job = Job(
    idempotencyKey: string,
    state: JobState,
    attempts: nat,
    nextAttemptAt: Option<Instant>,
    leaseExpiresAt: Option<Instant>,
    lastError: Option<string>)

  /** How an attempt ended: the state it left its job in, when, and the error if there was one. */
  datatype Ending = Ending(state: JobState, finishedAt: Instant, errorClass: Option<ErrorClass>, error: Option<string>)

  datatype Attempt = Attempt(startedAt: Instant, ending: Option<Ending>)

  datatype Db = Db(jobs: map<JobId, Job>, attempts: map<(JobId, nat), Attempt>)

  const LEASE_EXPIRED: string := "lease expired; worker did not finish"

  function NewJob(key: string): Job {
    Job(key, Queued, 0, None, None, None)
  }

  function Apply(job: Job, t: JobTransition): Job {
    job.(state := t.state, attempts := t.attempts, nextAttemptAt := t.nextAttemptAt,
         leaseExpiresAt := t.leaseExpiresAt,
         lastError := if t.lastError.Some? then t.lastError else job.lastError)
  }

  function ClaimOf(job: Job, leaseSeconds: nat, now: Instant): Option<JobTransition> {
    Claim(job.state, job.attempts, leaseSeconds, job.nextAttemptAt, now)
  }

  /** A running row whose lease is missing or in the past. */
  predicate Stale(job: Job, now: Instant) {
    job.state == Running && IsLeaseExpired(job.leaseExpiresAt, now)
  }

  predicate Due(job: Job, now: Instant) {
    IsDue(job.state, job.nextAttemptAt, now)
  }

  function StaleIds(jobs: map<JobId, Job>, now: Instant): set<JobId> {
    set j | j in jobs && Stale(jobs[j], now)
  }

  function DueIds(jobs: map<JobId, Job>, now: Instant): set<JobId> {
    set j | j in jobs && Due(jobs[j], now)
  }

  function Reclaimed(job: Job, now: Instant): Job {
    job.(state := RetryWait, leaseExpiresAt := None, nextAttemptAt := Some(now), lastError := Some(LEASE_EXPIRED))
  }

  function ReclaimRows(jobs: map<JobId, Job>, ids: set<JobId>, now: Instant): map<JobId, Job> {
    map j | j in jobs :: if j in ids then Reclaimed(jobs[j], now) else jobs[j]
  }

  function RenewRow(job: Job, leaseSeconds: nat, now: Instant): Job {
    if job.state == Running then job.(leaseExpiresAt := Some(LeaseExpiry(leaseSeconds, now))) else job
  }

  function ApplyRow(jobs: map<JobId, Job>, j: JobId, t: JobTransition): map<JobId, Job> {
    if j in jobs then jobs[j := Apply(jobs[j], t)] else jobs
  }

  function FinishRow(attempts: map<(JobId, nat), Attempt>, j: JobId, n: nat, ending: Ending):
    map<(JobId, nat), Attempt>
  {
    if (j, n) in attempts then attempts[(j, n) := attempts[(j, n)].(ending := Some(ending))] else attempts
  }

  ghost predicate KeysUnique(jobs: map<JobId, Job>) {
    forall a, b | a in jobs && b in jobs && jobs[a].idempotencyKey == jobs[b].idempotencyKey :: a == b
  }

  ghost predicate Ascending(ids: seq<JobId>) {
    forall a, b | 0 <= a < b < |ids| :: ids[a] < ids[b]
  }

  function Members(ids: seq<JobId>): set<JobId> {
    set j | j in ids
  }

  lemma MembersSnoc(ids: seq<JobId>, j: JobId)
    ensures Members(ids + [j]) == Members(ids) + {j}
  {
    assert forall k :: k in ids + [j] <==> k in ids || k == j;
  }

  lemma {:induction false} AscendingDistinct(ids: seq<JobId>)
    requires Ascending(ids)
    ensures |Members(ids)| == |ids|
  {
    if ids != [] {
      var front, last := ids[..|ids| - 1], ids[|ids| - 1];
      assert ids == front + [last];
      AscendingDistinct(front);
      MembersSnoc(front, last);
      assert last !in front;
    }
  }

  /** `ids` are the lowest-numbered members of `pool`, at most `limit` of them, in order:
      what `ORDER BY job_id LIMIT n` returns. */
  ghost predicate LowestOf(ids: seq<JobId>, pool: set<JobId>, limit: nat) {
    && Ascending(ids)
    && (forall j | j in ids :: j in pool)
    && (forall j, k | j in ids && k in pool && k !in ids :: j < k)
    && |ids| == (if |pool| <= limit then |pool| else limit)
  }

  method Least(pool: set<JobId>) returns (least: JobId)
    requires pool != {}
    ensures least in pool
    ensures forall j | j in pool :: least <= j
  {
    least :| least in pool;
    var rest := pool - {least};
    while rest != {}
      invariant least in pool
      invariant rest <= pool
      invariant forall j | j in pool && j !in rest :: least <= j
      decreases rest
    {
      var j :| j in rest;
      if j < least { least := j; }
      rest := rest - {j};
    }
  }

  method SelectLowest(pool: set<JobId>, limit: nat) returns (ids: seq<JobId>)
    ensures LowestOf(ids, pool, limit)
  {
    ids := [];
    var rest := pool;
    while |ids| < limit && rest != {}
      invariant rest <= pool
      invariant Ascending(ids)
      invariant forall a | 0 <= a < |ids| :: ids[a] in pool && ids[a] !in rest
      invariant forall k | k in pool && k !in rest :: k in ids
      invariant forall a, k | 0 <= a < |ids| && k in rest :: ids[a] < k
      invariant |rest| == |pool| - |ids|
      invariant |ids| <= limit
      decreases rest
    {
      var j := Least(rest);
      ids := ids + [j];
      rest := rest - {j};
    }
  }

  lemma SubsetOfSameSize(part: set<JobId>, whole: set<JobId>)
    requires part <= whole
    ensures |part| <= |whole|
    ensures |part| == |whole| ==> part == whole
  {
    assert whole == part + (whole - part);
    assert |whole| == |part| + |whole - part|;
  }

  lemma AllSelected(order: seq<JobId>, ids: set<JobId>, limit: nat)
    requires LowestOf(order, ids, limit)
    ensures Members(order) <= ids
    ensures |ids| <= limit ==> Members(order) == ids
  {
    AscendingDistinct(order);
    SubsetOfSameSize(Members(order), ids);
  }

  /** What the count of due rows says about the next selection: never less than it will pick, the whole of it when
      nothing is locked and the limit suffices, and zero exactly when an unlocked selection would come back empty. */
  lemma RemainingMeansMore(jobs: map<JobId, Job>, ids: seq<JobId>, lockedRows: set<JobId>, limit: nat, now: Instant)
    requires LowestOf(ids, DueIds(jobs, now) - lockedRows, limit) && limit > 0
    ensures |ids| <= |DueIds(jobs, now)|
    ensures lockedRows !! DueIds(jobs, now) && |DueIds(jobs, now)| <= limit ==> Members(ids) == DueIds(jobs, now)
    ensures lockedRows !! DueIds(jobs, now) ==> (ids == [] <==> |DueIds(jobs, now)| == 0)
  {
    SubsetOfSameSize(DueIds(jobs, now) - lockedRows, DueIds(jobs, now));
    AllSelected(ids, DueIds(jobs, now) - lockedRows, limit);
    if lockedRows !! DueIds(jobs, now) { assert DueIds(jobs, now) - lockedRows == DueIds(jobs, now); }
  }

  class JobStore {
    var jobs: map<JobId, Job>
    var attempts: map<(JobId, nat), Attempt>

    ghost function View(): Db
      reads this
    {
      Db(jobs, attempts)
    }

    constructor ()
      ensures View() == Db(map[], map[])
    {
      jobs := map[];
      attempts := map[];
    }

    /** Create a job, or return the one that already carries this idempotency key. */
    method EnqueueJob(freshId: JobId, key: string) returns (id: JobId, created: bool)
      requires freshId !in jobs
      modifies this`jobs
      ensures KeysUnique(old(jobs)) ==> KeysUnique(jobs)
      ensures id in jobs && jobs[id].idempotencyKey == key
      ensures created <==> forall j | j in old(jobs) :: old(jobs)[j].idempotencyKey != key
      ensures created ==> id == freshId && jobs == old(jobs)[freshId := NewJob(key)]
      ensures !created ==> jobs == old(jobs)
    {
      var owners := set j | j in jobs && jobs[j].idempotencyKey == key;
      if owners == {} {
        jobs := jobs[freshId := NewJob(key)];
        assert forall j | j in old(jobs) :: j in owners || old(jobs)[j].idempotencyKey != key;
        return freshId, true;
      }
      id :| id in owners;
      created := false;
    }

    /** Lock a due job and mark it running, or refuse. */
    method ClaimJob(id: JobId, leaseSeconds: nat, now: Instant) returns (claimed: Option<Job>)
      modifies this`jobs
      ensures claimed.Some? <==> id in old(jobs) && Due(old(jobs)[id], now)
      ensures claimed.None? ==> jobs == old(jobs)
      ensures claimed.Some? ==>
        && claimed.value.state == Running
        && claimed.value.attempts == old(jobs)[id].attempts + 1
        && claimed.value.leaseExpiresAt == Some(now + leaseSeconds * SECOND)
        && claimed.value.nextAttemptAt == None
        && claimed.value.idempotencyKey == old(jobs)[id].idempotencyKey
        && claimed.value.lastError == old(jobs)[id].lastError
        && jobs == old(jobs)[id := claimed.value]
    {
      if id !in jobs { return None; }
      var transition := ClaimOf(jobs[id], leaseSeconds, now);
      if transition.None? { return None; }
      jobs := jobs[id := Apply(jobs[id], transition.value)];
      claimed := Some(jobs[id]);
    }

    /** Ids of jobs ready to run, skipping rows another transaction has locked. */
    method DueJobIds(limit: nat, lockedRows: set<JobId>, now: Instant) returns (ids: seq<JobId>)
      ensures LowestOf(ids, DueIds(jobs, now) - lockedRows, limit)
    {
      ids := SelectLowest(DueIds(jobs, now) - lockedRows, limit);
    }

    /** Uncapped count of due jobs. */
    method CountDueJobs(now: Instant) returns (n: nat)
      ensures n == |DueIds(jobs, now)|
    {
      n := |DueIds(jobs, now)|;
    }

    /** The sweep's UPDATE: requeue exactly these rows. */
    method ReclaimEach(ids: seq<JobId>, now: Instant)
      requires forall j | j in ids :: j in jobs
      modifies this`jobs
      ensures jobs == ReclaimRows(old(jobs), Members(ids), now)
    {
      var i := 0;
      while i < |ids|
        invariant 0 <= i <= |ids|
        invariant jobs.Keys == old(jobs).Keys
        invariant jobs == ReclaimRows(old(jobs), Members(ids[..i]), now)
      {
        var j := ids[i];
        assert ids[..i + 1] == ids[..i] + [j];
        MembersSnoc(ids[..i], j);
        jobs := jobs[j := Reclaimed(jobs[j], now)];
        i := i + 1;
      }
      assert ids[..i] == ids;
    }

    /** Return the jobs whose worker died to the queue: the lowest-numbered stale rows nobody has locked. */
    method ReclaimExpiredLeases(limit: nat, lockedRows: set<JobId>, now: Instant)
      returns (count: nat, ghost ids: seq<JobId>)
      modifies this`jobs
      ensures LowestOf(ids, StaleIds(old(jobs), now) - lockedRows, limit)
      ensures jobs == ReclaimRows(old(jobs), Members(ids), now)
      ensures count == |ids| == |Members(ids)|
    {
      var stale := SelectLowest(StaleIds(jobs, now) - lockedRows, limit);
      ids := stale;
      AscendingDistinct(stale);
      count := |stale|;
      ReclaimEach(stale, now);
    }

    /** Extend a running job's lease; any other row is left alone. */
    method RenewLease(id: JobId, leaseSeconds: nat, now: Instant)
      modifies this`jobs
      ensures jobs == if id in old(jobs) then old(jobs)[id := RenewRow(old(jobs)[id], leaseSeconds, now)] else old(jobs)
    {
      if id in jobs && jobs[id].state == Running {
        jobs := jobs[id := jobs[id].(leaseExpiresAt := Some(LeaseExpiry(leaseSeconds, now)))];
      }
    }

    /** Write a transition without looking at the state it replaces. */
    method ApplyTransition(id: JobId, t: JobTransition) returns (found: bool)
      modifies this`jobs
      ensures found <==> id in old(jobs)
      ensures jobs == ApplyRow(old(jobs), id, t)
    {
      found := id in jobs;
      if found { jobs := jobs[id := Apply(jobs[id], t)]; }
    }

    /** Insert the attempt row; the unique (job, attempt number) constraint may refuse it. */
    method StartAttempt(id: JobId, attemptNumber: nat, now: Instant) returns (inserted: bool)
      modifies this`attempts
      ensures inserted <==> (id, attemptNumber) !in old(attempts)
      ensures attempts == if inserted then old(attempts)[(id, attemptNumber) := Attempt(now, None)] else old(attempts)
    {
      inserted := (id, attemptNumber) !in attempts;
      if inserted { attempts := attempts[(id, attemptNumber) := Attempt(now, None)]; }
    }

    /** Write an attempt's ending on its own row, whatever it said before. */
    method FinishAttempt(id: JobId, attemptNumber: nat, ending: Ending)
      modifies this`attempts
      ensures attempts == FinishRow(old(attempts), id, attemptNumber, ending)
    {
      if (id, attemptNumber) in attempts {
        attempts := attempts[(id, attemptNumber) := attempts[(id, attemptNumber)].(ending := Some(ending))];
      }
    }
  }
}
