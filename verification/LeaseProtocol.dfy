/** Any number of workers and sweepers over one job table, as a timed step system.
    Each event is one committed transaction, one timer firing, or the passing of time. */
module LeaseProtocol {
  import opened Wrappers
  import opened Retries
  import opened JobTable

  type WorkerId = nat

  const HEARTBEAT_DIVISOR: nat := 3
  const MIN_HEARTBEAT_SECONDS: int := 5

  datatype Config = Config(leaseSeconds: nat, maxAttempts: int)

  /** `Finishing`: the graph returned, the heartbeat is cancelled, the final write is pending. */
  datatype Phase = Beating | Finishing

  /** A worker between its claim and its final write. `attempt` is the snapshot it took when
      claiming; `touchedAt` is its last claim or successful renewal. */
  datatype Worker = Worker(
    job: JobId,
    attempt: nat,
    touchedAt: Instant,
    nextBeat: Instant,
    missed: nat,
    cancelledAt: Instant,
    phase: Phase)

  datatype World = World(now: Instant, db: Db, live: map<WorkerId, Worker>)

  datatype Event =
    | Tick(elapsed: nat)
    | Enqueue(id: JobId, key: string)
    | ClaimJob(worker: WorkerId, id: JobId)
    | Beat(worker: WorkerId)
    | MissBeat(worker: WorkerId)
    | CancelBeat(worker: WorkerId)
    | FinishOk(worker: WorkerId)
    | FinishFailed(worker: WorkerId, errorClass: ErrorClass, error: string)
    | Crash(worker: WorkerId)
    | Reclaim(ids: set<JobId>)

  function Lease(c: Config): int {
    c.leaseSeconds * SECOND
  }

  function IntervalSeconds(leaseSeconds: nat): int {
    Max(leaseSeconds / HEARTBEAT_DIVISOR, MIN_HEARTBEAT_SECONDS)
  }

  function Interval(c: Config): int {
    IntervalSeconds(c.leaseSeconds) * SECOND
  }

  function Initial(now: Instant): World {
    World(now, Db(map[], map[]), map[])
  }

  predicate Enabled(c: Config, s: World, e: Event) {
    match e
    case Tick(_) => true
    case Enqueue(j, _) => j !in s.db.jobs
    case ClaimJob(w, j) => w !in s.live && j in s.db.jobs && Due(s.db.jobs[j], s.now)
    case Beat(w) => w in s.live && s.live[w].phase == Beating && s.live[w].nextBeat <= s.now
    case MissBeat(w) => w in s.live && s.live[w].phase == Beating && s.live[w].nextBeat <= s.now
    case CancelBeat(w) => w in s.live && s.live[w].phase == Beating
    case FinishOk(w) => w in s.live && s.live[w].phase == Finishing
    case FinishFailed(w, _, _) => w in s.live && s.live[w].phase == Beating
    case Crash(w) => w in s.live
    case Reclaim(ids) => forall j | j in ids :: j in s.db.jobs && Stale(s.db.jobs[j], s.now)
  }

  /** Claim and attempt row commit together; a clash on the attempt number rolls both back. */
  function AfterClaim(c: Config, s: World, w: WorkerId, j: JobId): World
    requires j in s.db.jobs && Due(s.db.jobs[j], s.now)
  {
    var job := Apply(s.db.jobs[j], ClaimOf(s.db.jobs[j], c.leaseSeconds, s.now).value);
    if (j, job.attempts) in s.db.attempts then s
    else World(
      s.now,
      Db(s.db.jobs[j := job], s.db.attempts[(j, job.attempts) := Attempt(s.now, None)]),
      s.live[w := Worker(j, job.attempts, s.now, s.now + Interval(c), 0, s.now, Beating)])
  }

  /** The worker's final write: unconditional, from its own snapshot of the attempt count. */
  function AfterFinish(s: World, w: WorkerId, t: JobTransition, cls: Option<ErrorClass>, err: Option<string>): World
    requires w in s.live
  {
    var me := s.live[w];
    World(
      s.now,
      Db(ApplyRow(s.db.jobs, me.job, t),
         FinishRow(s.db.attempts, me.job, me.attempt, Ending(t.state, s.now, cls, err))),
      s.live - {w})
  }

  function AfterBeat(c: Config, s: World, w: WorkerId): World
    requires w in s.live
  {
    var me := s.live[w];
    var jobs := if me.job in s.db.jobs
                then s.db.jobs[me.job := RenewRow(s.db.jobs[me.job], c.leaseSeconds, s.now)] else s.db.jobs;
    World(s.now, s.db.(jobs := jobs),
          s.live[w := me.(touchedAt := s.now, nextBeat := s.now + Interval(c), missed := 0)])
  }

  function Next(c: Config, s: World, e: Event): World
    requires Enabled(c, s, e)
  {
    match e
    case Tick(dt) => s.(now := s.now + dt)
    case Enqueue(j, key) =>
      if exists k :: k in s.db.jobs && s.db.jobs[k].idempotencyKey == key then s
      else s.(db := s.db.(jobs := s.db.jobs[j := NewJob(key)]))
    case ClaimJob(w, j) => AfterClaim(c, s, w, j)
    case Beat(w) => AfterBeat(c, s, w)
    case MissBeat(w) =>
      s.(live := s.live[w := s.live[w].(nextBeat := s.now + Interval(c), missed := s.live[w].missed + 1)])
    case CancelBeat(w) => s.(live := s.live[w := s.live[w].(phase := Finishing, cancelledAt := s.now)])
    case FinishOk(w) => AfterFinish(s, w, Succeed(s.live[w].attempt), None, None)
    case FinishFailed(w, cls, err) =>
      AfterFinish(s, w, Fail(s.live[w].attempt, err, cls, c.maxAttempts, s.now), Some(cls), Some(err))
    case Crash(w) => s.(live := s.live - {w})
    case Reclaim(ids) => s.(db := s.db.(jobs := ReclaimRows(s.db.jobs, ids, s.now)))
  }

  ghost predicate Valid(c: Config, s: World, es: seq<Event>)
    decreases |es|
  {
    es == [] || (Enabled(c, s, es[0]) && Valid(c, Next(c, s, es[0]), es[1..]))
  }

  ghost function Run(c: Config, s: World, es: seq<Event>): World
    requires Valid(c, s, es)
    decreases |es|
  {
    if es == [] then s else Run(c, Next(c, s, es[0]), es[1..])
  }

  /** The timing hypothesis: no live worker lets a whole lease pass since it last touched its row. */
  ghost predicate Timely(c: Config, s: World) {
    forall w | w in s.live :: s.now < s.live[w].touchedAt + Lease(c)
  }

  ghost predicate TimelyRun(c: Config, s: World, es: seq<Event>)
    decreases |es|
  {
    Timely(c, s) && (es == [] || (Enabled(c, s, es[0]) && TimelyRun(c, Next(c, s, es[0]), es[1..])))
  }

  lemma {:induction false} TimelyRunsAreRuns(c: Config, s: World, es: seq<Event>)
    requires TimelyRun(c, s, es)
    ensures Valid(c, s, es) && Timely(c, Run(c, s, es))
    decreases |es|
  {
    if es != [] { TimelyRunsAreRuns(c, Next(c, s, es[0]), es[1..]); }
  }

  /** What a row may look like in each state; waiting-for-review and cancelled are never reached. */
  predicate RowShape(job: Job) {
    match job.state
    case Queued => job.attempts == 0 && job.nextAttemptAt.None? && job.leaseExpiresAt.None?
    case Running => job.attempts >= 1 && job.nextAttemptAt.None? && job.leaseExpiresAt.Some?
    case RetryWait => job.attempts >= 1 && job.nextAttemptAt.Some? && job.leaseExpiresAt.None?
    case Completed => job.attempts >= 1 && job.nextAttemptAt.None? && job.leaseExpiresAt.None?
    case FailedReview => job.attempts >= 1 && job.nextAttemptAt.None? && job.leaseExpiresAt.None?
    case _ => false
  }

  /** A live worker's row is running, on its attempt, leased for exactly one lease since its last touch. */
  ghost predicate Holds(c: Config, s: World, w: WorkerId)
    requires w in s.live
  {
    var me := s.live[w];
    && me.job in s.db.jobs
    && s.db.jobs[me.job].state == Running
    && s.db.jobs[me.job].attempts == me.attempt
    && s.db.jobs[me.job].leaseExpiresAt == Some(me.touchedAt + Lease(c))
    && me.touchedAt <= s.now
  }

  ghost predicate Exclusive(s: World) {
    forall v, w | v in s.live && w in s.live && s.live[v].job == s.live[w].job :: v == w
  }

  /** The attempt rows of a job are numbered exactly 1 .. attempts. */
  ghost predicate AttemptsNumbered(db: Db) {
    forall j, n :: (j, n) in db.attempts <==> j in db.jobs && 1 <= n <= db.jobs[j].attempts
  }

  ghost predicate Inv(c: Config, s: World) {
    && (forall j | j in s.db.jobs :: RowShape(s.db.jobs[j]))
    && (forall w | w in s.live :: Holds(c, s, w))
    && Exclusive(s)
    && AttemptsNumbered(s.db)
    && KeysUnique(s.db.jobs)
  }

  lemma InitialInv(c: Config, now: Instant)
    ensures Inv(c, Initial(now)) && Timely(c, Initial(now))
  {
  }

  /** A due row has no live worker, so no second worker can join a live one. */
  lemma DueHasNoWorker(c: Config, s: World, j: JobId)
    requires Inv(c, s) && j in s.db.jobs && s.db.jobs[j].state != Running
    ensures forall w | w in s.live :: s.live[w].job != j
  {
    forall w | w in s.live ensures s.live[w].job != j {
      assert Holds(c, s, w);
    }
  }

  /** The exact condition: a sweep may take a live worker's row iff a whole lease has passed since
      that worker last touched it. Timeliness is therefore what "no live worker is reclaimed" means. */
  lemma ReclaimableIff(c: Config, s: World, w: WorkerId)
    requires Inv(c, s) && w in s.live
    ensures Enabled(c, s, Reclaim({s.live[w].job})) <==> s.now >= s.live[w].touchedAt + Lease(c)
  {
    assert Holds(c, s, w);
  }

  /** No live worker is ever reclaimed. */
  lemma NoLiveWorkerReclaimed(c: Config, s: World, ids: set<JobId>, w: WorkerId)
    requires Inv(c, s) && Timely(c, s) && Enabled(c, s, Reclaim(ids)) && w in s.live
    ensures s.live[w].job !in ids
  {
    assert Holds(c, s, w);
  }

  /** The unique (job, attempt number) constraint never refuses a claim. */
  lemma ClaimNeverClashes(c: Config, s: World, w: WorkerId, j: JobId)
    requires Inv(c, s) && Enabled(c, s, ClaimJob(w, j))
    ensures (j, s.db.jobs[j].attempts + 1) !in s.db.attempts
    ensures w in Next(c, s, ClaimJob(w, j)).live
  {
  }

  lemma ClaimKeepsHolds(c: Config, s: World, e: Event, w: WorkerId)
    requires Inv(c, s) && Timely(c, s) && Enabled(c, s, e) && e.ClaimJob? && w in Next(c, s, e).live
    ensures Holds(c, Next(c, s, e), w)
  {
    DueHasNoWorker(c, s, e.id);
    if w in s.live { assert Holds(c, s, w); }
  }

  lemma FinishKeepsHolds(c: Config, s: World, e: Event, w: WorkerId)
    requires Inv(c, s) && Timely(c, s) && Enabled(c, s, e)
    requires (e.FinishOk? || e.FinishFailed?) && w in Next(c, s, e).live
    ensures Holds(c, Next(c, s, e), w)
  {
    assert Holds(c, s, w);
    assert s.live[w].job != s.live[e.worker].job;
  }

  lemma ReclaimKeepsHolds(c: Config, s: World, e: Event, w: WorkerId)
    requires Inv(c, s) && Timely(c, s) && Enabled(c, s, e) && e.Reclaim? && w in s.live
    ensures Holds(c, Next(c, s, e), w)
  {
    NoLiveWorkerReclaimed(c, s, e.ids, w);
    assert Holds(c, s, w);
  }

  lemma BeatKeepsHolds(c: Config, s: World, e: Event, w: WorkerId)
    requires Inv(c, s) && Timely(c, s) && Enabled(c, s, e) && e.Beat? && w in s.live
    ensures Holds(c, Next(c, s, e), w)
  {
    assert Holds(c, s, w);
    assert w != e.worker ==> s.live[w].job != s.live[e.worker].job;
  }

  lemma StepKeepsHolds(c: Config, s: World, e: Event, w: WorkerId)
    requires Inv(c, s) && Timely(c, s) && Enabled(c, s, e) && w in Next(c, s, e).live
    ensures Holds(c, Next(c, s, e), w)
  {
    match e {
      case ClaimJob(_, _) => ClaimKeepsHolds(c, s, e, w);
      case FinishOk(_) => FinishKeepsHolds(c, s, e, w);
      case FinishFailed(_, _, _) => FinishKeepsHolds(c, s, e, w);
      case Reclaim(_) => ReclaimKeepsHolds(c, s, e, w);
      case Beat(_) => BeatKeepsHolds(c, s, e, w);
      case _ => assert Holds(c, s, w);
    }
  }

  lemma StepKeepsExclusive(c: Config, s: World, e: Event)
    requires Inv(c, s) && Timely(c, s) && Enabled(c, s, e)
    ensures Exclusive(Next(c, s, e))
  {
    if e.ClaimJob? { DueHasNoWorker(c, s, e.id); }
  }

  lemma StepKeepsRowShape(c: Config, s: World, e: Event, j: JobId)
    requires Inv(c, s) && Timely(c, s) && Enabled(c, s, e) && j in Next(c, s, e).db.jobs
    ensures RowShape(Next(c, s, e).db.jobs[j])
  {
    if e.FinishOk? || e.FinishFailed? { assert Holds(c, s, e.worker); }
  }

  lemma StepKeepsRows(c: Config, s: World, e: Event)
    requires Inv(c, s) && Timely(c, s) && Enabled(c, s, e)
    ensures var t := Next(c, s, e); forall j | j in t.db.jobs :: RowShape(t.db.jobs[j])
    ensures KeysUnique(Next(c, s, e).db.jobs)
  {
    forall j | j in Next(c, s, e).db.jobs ensures RowShape(Next(c, s, e).db.jobs[j]) { StepKeepsRowShape(c, s, e, j); }
  }

  lemma StepKeepsNumbers(c: Config, s: World, e: Event)
    requires Inv(c, s) && Timely(c, s) && Enabled(c, s, e)
    ensures AttemptsNumbered(Next(c, s, e).db)
  {
    if e.FinishOk? || e.FinishFailed? { assert Holds(c, s, e.worker); }
  }

  lemma StepKeepsInv(c: Config, s: World, e: Event)
    requires Inv(c, s) && Timely(c, s) && Enabled(c, s, e)
    ensures Inv(c, Next(c, s, e))
  {
    var t := Next(c, s, e);
    forall w | w in t.live ensures Holds(c, t, w) { StepKeepsHolds(c, s, e, w); }
    StepKeepsExclusive(c, s, e);
    StepKeepsRows(c, s, e);
    StepKeepsNumbers(c, s, e);
  }

  /** Over every timely interleaving the invariant holds at the end, hence (prefixes being runs) throughout. */
  lemma {:induction false} RunKeepsInv(c: Config, s: World, es: seq<Event>)
    requires Inv(c, s) && TimelyRun(c, s, es)
    ensures Valid(c, s, es) && Inv(c, Run(c, s, es))
    decreases |es|
  {
    if es != [] {
      StepKeepsInv(c, s, es[0]);
      RunKeepsInv(c, Next(c, s, es[0]), es[1..]);
    }
  }

  lemma {:induction false} PrefixesAreTimely(c: Config, s: World, es: seq<Event>, k: nat)
    requires TimelyRun(c, s, es) && k <= |es|
    ensures TimelyRun(c, s, es[..k]) && Valid(c, s, es[..k])
    ensures k < |es| ==> Enabled(c, Run(c, s, es[..k]), es[k])
    decreases k
  {
    if k > 0 {
      PrefixesAreTimely(c, Next(c, s, es[0]), es[1..], k - 1);
      assert es[..k][1..] == es[1..][..k - 1];
    }
    TimelyRunsAreRuns(c, s, es[..k]);
  }

  /** Lease safety at every moment of every timely run from an empty table: live workers hold different
      jobs; each one's row is running on its own attempt with time left on the lease; attempt rows are
      numbered exactly 1 .. attempts; and a sweep about to happen takes nobody's live job. */
  lemma LeaseSafety(c: Config, now: Instant, es: seq<Event>, k: nat)
    requires TimelyRun(c, Initial(now), es) && k <= |es|
    ensures Valid(c, Initial(now), es[..k])
    ensures var s := Run(c, Initial(now), es[..k]);
            && (forall v, w | v in s.live && w in s.live && v != w :: s.live[v].job != s.live[w].job)
            && (forall w | w in s.live ::
                  var j := s.live[w].job;
                  && j in s.db.jobs && s.db.jobs[j].state == Running
                  && s.db.jobs[j].attempts == s.live[w].attempt
                  && !IsLeaseExpired(s.db.jobs[j].leaseExpiresAt, s.now))
            && (forall j, n :: (j, n) in s.db.attempts <==> j in s.db.jobs && 1 <= n <= s.db.jobs[j].attempts)
            && (k < |es| && es[k].Reclaim? ==> forall w | w in s.live :: s.live[w].job !in es[k].ids)
  {
    PrefixesAreTimely(c, Initial(now), es, k);
    InitialInv(c, now);
    RunKeepsInv(c, Initial(now), es[..k]);
    TimelyRunsAreRuns(c, Initial(now), es[..k]);
    var s := Run(c, Initial(now), es[..k]);
    forall w | w in s.live
      ensures s.live[w].job in s.db.jobs && s.db.jobs[s.live[w].job].state == Running
      ensures s.db.jobs[s.live[w].job].attempts == s.live[w].attempt
      ensures !IsLeaseExpired(s.db.jobs[s.live[w].job].leaseExpiresAt, s.now)
      ensures k < |es| && es[k].Reclaim? ==> s.live[w].job !in es[k].ids
    {
      assert Holds(c, s, w);
    }
  }

  /** One step never touches a terminal row. */
  lemma StepKeepsTerminal(c: Config, s: World, e: Event, j: JobId)
    requires Inv(c, s) && Timely(c, s) && Enabled(c, s, e)
    requires j in s.db.jobs && Terminal(s.db.jobs[j].state)
    ensures j in Next(c, s, e).db.jobs && Next(c, s, e).db.jobs[j] == s.db.jobs[j]
  {
    if e.FinishOk? || e.FinishFailed? || e.Beat? { assert Holds(c, s, e.worker); }
  }

  /** Terminal states are absorbing: whatever follows, the row is the same row. */
  lemma {:induction false} TerminalForever(c: Config, s: World, es: seq<Event>, j: JobId)
    requires Inv(c, s) && TimelyRun(c, s, es)
    requires j in s.db.jobs && Terminal(s.db.jobs[j].state)
    ensures Valid(c, s, es)
    ensures j in Run(c, s, es).db.jobs && Run(c, s, es).db.jobs[j] == s.db.jobs[j]
    decreases |es|
  {
    if es != [] {
      StepKeepsInv(c, s, es[0]);
      StepKeepsTerminal(c, s, es[0], j);
      TerminalForever(c, Next(c, s, es[0]), es[1..], j);
    }
  }
}
