/** What the lease protocol guarantees over whole runs, and what it stands on. */
module Heartbeats {
  import opened Wrappers
  import opened Retries
  import opened JobTable
  import opened LeaseProtocol

  /** How late things may be: a beat fires within `slack` of its due time, at most `maxMissed` beats
      in a row fail, and a cancelled heartbeat is followed by the final write within `finish`. */
  datatype Timing = Timing(slack: nat, maxMissed: nat, finish: nat)

  ghost predicate Punctual(p: Timing, s: World) {
    forall w | w in s.live ::
      var me := s.live[w];
      && me.missed <= p.maxMissed
      && (me.phase == Beating ==> s.now <= me.nextBeat + p.slack)
      && (me.phase == Finishing ==> s.now <= me.cancelledAt + p.finish)
  }

  ghost predicate PunctualRun(c: Config, p: Timing, s: World, es: seq<Event>)
    decreases |es|
  {
    Punctual(p, s) && (es == [] || (Enabled(c, s, es[0]) && PunctualRun(c, p, Next(c, s, es[0]), es[1..])))
  }

  function Cycle(c: Config, p: Timing): nat {
    Interval(c) + p.slack
  }

  /** The beats that may be missed, their lateness and the window after cancellation fit inside one lease. */
  predicate Fits(c: Config, p: Timing) {
    (p.maxMissed + 1) * Cycle(c, p) + p.finish < Lease(c)
  }

  /** The next beat is due no later than one cycle per beat missed since the last touch, plus one interval. */
  ghost predicate BeatsOnSchedule(c: Config, p: Timing, s: World) {
    forall w | w in s.live ::
      var me := s.live[w];
      && me.nextBeat <= me.touchedAt + me.missed * Cycle(c, p) + Interval(c)
      && (me.phase == Finishing ==>
            me.cancelledAt <= me.touchedAt + me.missed * Cycle(c, p) + Interval(c) + p.slack)
  }

  lemma StepKeepsSchedule(c: Config, p: Timing, s: World, e: Event)
    requires Punctual(p, s) && BeatsOnSchedule(c, p, s) && Enabled(c, s, e)
    ensures BeatsOnSchedule(c, p, Next(c, s, e))
  {
    if e.MissBeat? {
      var missed := s.live[e.worker].missed;
      assert (missed + 1) * Cycle(c, p) == missed * Cycle(c, p) + Cycle(c, p);
    }
  }

  lemma FitsInLease(missed: nat, maxMissed: nat, cycle: nat, rest: int)
    requires missed <= maxMissed
    ensures missed * cycle + cycle + rest <= (maxMissed + 1) * cycle + rest
  {
    assert (maxMissed + 1) * cycle == missed * cycle + (maxMissed - missed) * cycle + cycle;
  }

  lemma PunctualIsTimely(c: Config, p: Timing, s: World)
    requires Punctual(p, s) && BeatsOnSchedule(c, p, s)
    requires Fits(c, p)
    ensures Timely(c, s)
  {
    forall w | w in s.live ensures s.now < s.live[w].touchedAt + Lease(c) {
      var me := s.live[w];
      var cycle := Cycle(c, p);
      FitsInLease(me.missed, p.maxMissed, cycle, p.finish);
      var late := me.missed * cycle;
      assert s.now <= me.touchedAt + late + Interval(c) + p.slack + p.finish;
    }
  }

  lemma {:induction false} PunctualRunsAreTimely(c: Config, p: Timing, s: World, es: seq<Event>)
    requires BeatsOnSchedule(c, p, s) && PunctualRun(c, p, s, es)
    requires Fits(c, p)
    ensures TimelyRun(c, s, es)
    decreases |es|
  {
    PunctualIsTimely(c, p, s);
    if es != [] {
      StepKeepsSchedule(c, p, s, es[0]);
      PunctualRunsAreTimely(c, p, Next(c, s, es[0]), es[1..]);
    }
  }

  /** The heartbeat's purpose: if the missed beats, their lateness and the window after cancellation
      fit inside one lease, every run from an empty table is safe from beginning to end. */
  lemma HeartbeatKeepsJobsSafe(c: Config, p: Timing, now: Instant, es: seq<Event>)
    requires PunctualRun(c, p, Initial(now), es)
    requires Fits(c, p)
    ensures Valid(c, Initial(now), es)
    ensures Inv(c, Run(c, Initial(now), es)) && Timely(c, Run(c, Initial(now), es))
  {
    PunctualRunsAreTimely(c, p, Initial(now), es);
    InitialInv(c, now);
    RunKeepsInv(c, Initial(now), es);
    TimelyRunsAreRuns(c, Initial(now), es);
  }

  // ---- The bound is tight ----

  /** A worker that has missed `k` beats, each as late as it may be. */
  function LateWorld(c: Config, p: Timing, start: Instant, k: nat): World {
    World(start + k * Cycle(c, p),
          Db(map[0 := Job("k", Running, 1, None, Some(start + Lease(c)), None)], map[(0, 1) := Attempt(start, None)]),
          map[1 := Worker(0, 1, start, start + k * Cycle(c, p) + Interval(c), k, start, Beating)])
  }

  /** It misses every beat it may, is late to its last one, and takes all its time to finish. */
  function LatestRun(c: Config, p: Timing, k: nat): seq<Event>
    requires k <= p.maxMissed
    decreases p.maxMissed - k
  {
    if k == p.maxMissed then [Tick(Cycle(c, p)), CancelBeat(1), Tick(p.finish)]
    else [Tick(Cycle(c, p)), MissBeat(1)] + LatestRun(c, p, k + 1)
  }

  lemma LateStep(c: Config, p: Timing, start: Instant, k: nat)
    requires k < p.maxMissed
    ensures var s := LateWorld(c, p, start, k);
            && Punctual(p, s) && Enabled(c, s, Tick(Cycle(c, p)))
            && var t := Next(c, s, Tick(Cycle(c, p)));
            && Punctual(p, t) && Enabled(c, t, MissBeat(1))
            && Next(c, t, MissBeat(1)) == LateWorld(c, p, start, k + 1)
  {
    assert (k + 1) * Cycle(c, p) == k * Cycle(c, p) + Cycle(c, p);
    var t := Next(c, LateWorld(c, p, start, k), Tick(Cycle(c, p)));
    assert Next(c, t, MissBeat(1)).live == LateWorld(c, p, start, k + 1).live;
  }

  /** Where the latest run ends: still live, and untouched since its claim. */
  ghost predicate Overdue(c: Config, p: Timing, start: Instant, t: World) {
    && t.now == start + (p.maxMissed + 1) * Cycle(c, p) + p.finish
    && t.db == LateWorld(c, p, start, 0).db
    && 1 in t.live && t.live[1].job == 0 && t.live[1].touchedAt == start
  }

  lemma LastLap(c: Config, p: Timing, start: Instant)
    ensures var s := LateWorld(c, p, start, p.maxMissed);
            && PunctualRun(c, p, s, [Tick(Cycle(c, p)), CancelBeat(1), Tick(p.finish)])
            && Valid(c, s, [Tick(Cycle(c, p)), CancelBeat(1), Tick(p.finish)])
            && Overdue(c, p, start, Run(c, s, [Tick(Cycle(c, p)), CancelBeat(1), Tick(p.finish)]))
  {
    var s := LateWorld(c, p, start, p.maxMissed);
    var es := [Tick(Cycle(c, p)), CancelBeat(1), Tick(p.finish)];
    assert (p.maxMissed + 1) * Cycle(c, p) == p.maxMissed * Cycle(c, p) + Cycle(c, p);
    var t := Next(c, s, es[0]);
    var u := Next(c, t, es[1]);
    var v := Next(c, u, es[2]);
    assert es[1..][1..] == [Tick(p.finish)] && es[1..][1..][1..] == [];
    assert PunctualRun(c, p, v, []) && PunctualRun(c, p, u, [Tick(p.finish)]) && PunctualRun(c, p, t, es[1..]);
    assert Valid(c, u, [Tick(p.finish)]) && Valid(c, t, es[1..]);
    assert Run(c, s, es) == Run(c, t, es[1..]) == Run(c, u, [Tick(p.finish)]) == Run(c, v, []) == v;
  }

  lemma {:induction false} LatestRunFrom(c: Config, p: Timing, start: Instant, k: nat)
    requires k <= p.maxMissed
    ensures var s := LateWorld(c, p, start, k);
            && PunctualRun(c, p, s, LatestRun(c, p, k)) && Valid(c, s, LatestRun(c, p, k))
            && Overdue(c, p, start, Run(c, s, LatestRun(c, p, k)))
    decreases p.maxMissed - k
  {
    var s, es := LateWorld(c, p, start, k), LatestRun(c, p, k);
    if k == p.maxMissed {
      assert es == [Tick(Cycle(c, p)), CancelBeat(1), Tick(p.finish)];
      LastLap(c, p, start);
    } else {
      LateStep(c, p, start, k);
      LatestRunFrom(c, p, start, k + 1);
      var rest := LatestRun(c, p, k + 1);
      assert es == [Tick(Cycle(c, p)), MissBeat(1)] + rest;
      assert es[0] == Tick(Cycle(c, p)) && es[1..] == [MissBeat(1)] + rest && es[1..][1..] == rest;
      var t := Next(c, s, es[0]);
      assert PunctualRun(c, p, t, es[1..]) && Valid(c, t, es[1..]);
      assert Run(c, t, es[1..]) == Run(c, LateWorld(c, p, start, k + 1), rest);
    }
  }

  /** However a run goes, as long as it is punctual, no sweep may take a live worker's row. */
  ghost predicate PunctualityProtects(c: Config, p: Timing, start: Instant) {
    forall es, w | PunctualRun(c, p, Initial(start), es) && Valid(c, Initial(start), es)
                   && w in Run(c, Initial(start), es).live ::
      !Enabled(c, Run(c, Initial(start), es), Reclaim({Run(c, Initial(start), es).live[w].job}))
  }

  lemma Opening(c: Config, p: Timing, start: Instant) returns (es: seq<Event>)
    ensures PunctualRun(c, p, Initial(start), es) && Valid(c, Initial(start), es)
    ensures Overdue(c, p, start, Run(c, Initial(start), es))
  {
    var rest := LatestRun(c, p, 0);
    es := [Enqueue(0, "k"), ClaimJob(1, 0)] + rest;
    var s := Initial(start);
    var t := Next(c, s, es[0]);
    assert es[1..][0] == ClaimJob(1, 0) && es[1..][1..] == rest;
    assert t.db.jobs == map[0 := NewJob("k")];
    var u := Next(c, t, ClaimJob(1, 0));
    assert u == LateWorld(c, p, start, 0) by {
      assert u.live == LateWorld(c, p, start, 0).live;
      assert u.db.jobs == LateWorld(c, p, start, 0).db.jobs;
    }
    LatestRunFrom(c, p, start, 0);
    assert PunctualRun(c, p, t, es[1..]) && Valid(c, t, es[1..]);
  }

  /** The bound is exact: punctuality protects live workers if and only if it fits the lease. */
  lemma HeartbeatBoundIsTight(c: Config, p: Timing, start: Instant)
    ensures PunctualityProtects(c, p, start) <==> Fits(c, p)
  {
    if Fits(c, p) {
      forall es, w | PunctualRun(c, p, Initial(start), es) && Valid(c, Initial(start), es)
                     && w in Run(c, Initial(start), es).live
        ensures !Enabled(c, Run(c, Initial(start), es), Reclaim({Run(c, Initial(start), es).live[w].job}))
      {
        HeartbeatKeepsJobsSafe(c, p, start, es);
        ReclaimableIff(c, Run(c, Initial(start), es), w);
      }
    } else {
      var es := Opening(c, p, start);
      var t := Run(c, Initial(start), es);
      assert Enabled(c, t, Reclaim({t.live[1].job}));
    }
  }

  /** `n` consecutive missed beats leave time before the lease ends, with no lateness at all. */
  predicate SurvivesMissed(leaseSeconds: nat, n: nat) {
    (n + 1) * IntervalSeconds(leaseSeconds) < leaseSeconds
  }

  lemma OneMissedBeatSurvivedIff(leaseSeconds: nat)
    ensures SurvivesMissed(leaseSeconds, 1) <==> leaseSeconds > 10
  {
  }

  /** The heartbeat constant's comment promises that two missed renewals always leave time. They do
      exactly for leases above fifteen seconds that three does not divide: at thirds the third beat
      falls due at the very instant the sweeper may act. */
  lemma TwoMissedBeatsSurvivedIff(leaseSeconds: nat)
    ensures SurvivesMissed(leaseSeconds, 2) <==> leaseSeconds > 15 && leaseSeconds % 3 != 0
    ensures !SurvivesMissed(900, 2)
  {
  }
}

/** Why the timing hypothesis cannot be dropped: the final write is unconditional. */
module StaleWorkers {
  import opened Wrappers
  import opened Retries
  import opened JobTable
  import opened LeaseProtocol

  /** A worker stalls for a whole lease, a second one takes the job over and completes it, and then
      the first one's failure arrives. */
  function Overtaken(): seq<Event> {
    [Enqueue(0, "k"), ClaimJob(1, 0), Tick(30 * SECOND), Reclaim({0}), ClaimJob(2, 0), CancelBeat(2), FinishOk(2)]
  }

  function Late(): Event {
    FinishFailed(1, Retryable, "slow")
  }

  function C(): Config {
    Config(30, 5)
  }

  function At(now: Instant, state: JobState, attempts: nat, next: Option<Instant>, lease: Option<Instant>,
              error: Option<string>, rows: map<(JobId, nat), Attempt>, live: map<WorkerId, Worker>): World
  {
    World(now, Db(map[0 := Job("k", state, attempts, next, lease, error)], rows), live)
  }

  const L: int := 30_000_000
  const I: int := 10_000_000
  const STALLED: Worker := Worker(0, 1, 0, I, 0, 0, Beating)
  const SECOND_WORKER: Worker := Worker(0, 2, L, L + I, 0, L, Beating)
  const BOTH_ROWS: map<(JobId, nat), Attempt> := map[(0, 1) := Attempt(0, None), (0, 2) := Attempt(L, None)]

  /** The world after the first `k` events of `Overtaken`. */
  function Stage(k: nat): World {
    if k == 0 then Initial(0)
    else if k == 1 then At(0, Queued, 0, None, None, None, map[], map[])
    else if k == 2 then At(0, Running, 1, None, Some(L), None, map[(0, 1) := Attempt(0, None)], map[1 := STALLED])
    else if k == 3 then At(L, Running, 1, None, Some(L), None, map[(0, 1) := Attempt(0, None)], map[1 := STALLED])
    else if k == 4 then
      At(L, RetryWait, 1, Some(L), None, Some(LEASE_EXPIRED), map[(0, 1) := Attempt(0, None)], map[1 := STALLED])
    else if k == 5 then
      At(L, Running, 2, None, Some(L + L), Some(LEASE_EXPIRED), BOTH_ROWS, map[1 := STALLED, 2 := SECOND_WORKER])
    else if k == 6 then
      At(L, Running, 2, None, Some(L + L), Some(LEASE_EXPIRED), BOTH_ROWS,
         map[1 := STALLED, 2 := SECOND_WORKER.(phase := Finishing)])
    else
      At(L, Completed, 2, None, None, Some(LEASE_EXPIRED),
         BOTH_ROWS[(0, 2) := Attempt(L, Some(Ending(Completed, L, None, None)))],
         map[1 := STALLED])
  }

  lemma EarlySteps(k: nat)
    requires k < 4
    ensures Enabled(C(), Stage(k), Overtaken()[k]) && Next(C(), Stage(k), Overtaken()[k]) == Stage(k + 1)
  {
    var t := Next(C(), Stage(k), Overtaken()[k]);
    if k == 0 { assert t.db.jobs == Stage(1).db.jobs; }
    else if k == 1 { assert t.live == Stage(2).live; }
  }

  lemma LateSteps(k: nat)
    requires 4 <= k < 7
    ensures Enabled(C(), Stage(k), Overtaken()[k]) && Next(C(), Stage(k), Overtaken()[k]) == Stage(k + 1)
  {
    var t := Next(C(), Stage(k), Overtaken()[k]);
    if k == 4 {
      assert t.db.attempts == BOTH_ROWS;
      assert t.live == Stage(5).live;
    } else if k == 5 {
      assert t.live == Stage(6).live;
    } else {
      assert t.live == Stage(7).live;
    }
  }

  lemma StageSteps(k: nat)
    requires k < 7
    ensures Enabled(C(), Stage(k), Overtaken()[k]) && Next(C(), Stage(k), Overtaken()[k]) == Stage(k + 1)
  {
    if k < 4 { EarlySteps(k); } else { LateSteps(k); }
  }

  lemma {:induction false} StagesRun(k: nat)
    requires k <= 7
    ensures Valid(C(), Stage(k), Overtaken()[k..]) && Run(C(), Stage(k), Overtaken()[k..]) == Stage(7)
    decreases 7 - k
  {
    if k < 7 {
      StageSteps(k);
      StagesRun(k + 1);
      assert Overtaken()[k..][1..] == Overtaken()[k + 1..];
    }
  }

  /** The completed row goes back to waiting with an attempt count that was already used: the job will be
      run again after completing, and the next claim's attempt row is refused. */
  lemma StaleWriteUndoesCompletion()
    ensures Valid(C(), Initial(0), Overtaken())
    ensures var s := Run(C(), Initial(0), Overtaken());
            && 0 in s.db.jobs && s.db.jobs[0].state == Completed && s.db.jobs[0].attempts == 2
            && !Timely(C(), s)
            && Enabled(C(), s, Late())
            && var t := Next(C(), s, Late());
            && 0 in t.db.jobs && t.db.jobs[0].state == RetryWait && t.db.jobs[0].attempts == 1
            && (0, t.db.jobs[0].attempts + 1) in t.db.attempts
  {
    StagesRun(0);
    assert Overtaken()[0..] == Overtaken();
    var s := Stage(7);
    assert 1 in s.live && s.now >= s.live[1].touchedAt + Lease(C());
  }
}

/** Attempts are bounded by the cap plus the number of reclaims, counted from the run itself. */
module RetryBounds {
  import opened Wrappers
  import opened Retries
  import opened JobTable
  import opened LeaseProtocol

  function ClaimsOf(j: JobId, es: seq<Event>): nat {
    if es == [] then 0
    else (if es[0].ClaimJob? && es[0].id == j then 1 else 0) + ClaimsOf(j, es[1..])
  }

  function ReclaimsOf(j: JobId, es: seq<Event>): nat {
    if es == [] then 0
    else (if es[0].Reclaim? && j in es[0].ids then 1 else 0) + ReclaimsOf(j, es[1..])
  }

  function AttemptsAt(s: World, j: JobId): nat {
    if j in s.db.jobs then s.db.jobs[j].attempts else 0
  }

  /** Attempts made, plus the one a claimable row is about to make. */
  function Level(s: World, j: JobId): nat {
    if j !in s.db.jobs then 0
    else s.db.jobs[j].attempts + (if Claimable(s.db.jobs[j].state) then 1 else 0)
  }

  function Cap(c: Config): nat {
    Max(1, c.maxAttempts)
  }

  lemma StepLevel(c: Config, s: World, e: Event, j: JobId)
    requires Inv(c, s) && Timely(c, s) && Enabled(c, s, e)
    ensures var t := Next(c, s, e);
            && AttemptsAt(t, j) == AttemptsAt(s, j) + (if e.ClaimJob? && e.id == j then 1 else 0)
            && Level(t, j) <= Max(Level(s, j) + (if e.Reclaim? && j in e.ids then 1 else 0), Cap(c))
  {
    if e.FinishOk? || e.FinishFailed? || e.Beat? { assert Holds(c, s, e.worker); }
  }

  lemma {:induction false} RunLevel(c: Config, s: World, es: seq<Event>, j: JobId)
    requires Inv(c, s) && TimelyRun(c, s, es)
    ensures Valid(c, s, es)
    ensures AttemptsAt(Run(c, s, es), j) == AttemptsAt(s, j) + ClaimsOf(j, es)
    ensures Level(Run(c, s, es), j) <= Max(Level(s, j), Cap(c)) + ReclaimsOf(j, es)
    decreases |es|
  {
    if es != [] {
      StepKeepsInv(c, s, es[0]);
      StepLevel(c, s, es[0], j);
      RunLevel(c, Next(c, s, es[0]), es[1..], j);
    }
  }

  /** Every claim is one attempt; a job reclaimed r times is claimed at most max(1, cap) + r times,
      and one fewer while it still waits. */
  lemma ClaimsBounded(c: Config, now: Instant, es: seq<Event>, j: JobId)
    requires TimelyRun(c, Initial(now), es)
    ensures Valid(c, Initial(now), es)
    ensures var t := Run(c, Initial(now), es);
            && ClaimsOf(j, es) == AttemptsAt(t, j) <= Cap(c) + ReclaimsOf(j, es)
            && (j in t.db.jobs && Claimable(t.db.jobs[j].state) ==> ClaimsOf(j, es) < Cap(c) + ReclaimsOf(j, es))
  {
    InitialInv(c, now);
    RunLevel(c, Initial(now), es, j);
  }

  /** Once the bound is used up the job cannot be claimed again without a further reclaim: its last run is
      either still recorded as running or has left it completed or parked for a human. */
  lemma SpentJobsLeaveTheQueue(c: Config, now: Instant, es: seq<Event>, j: JobId)
    requires TimelyRun(c, Initial(now), es)
    requires ClaimsOf(j, es) >= Cap(c) + ReclaimsOf(j, es)
    ensures Valid(c, Initial(now), es)
    ensures var t := Run(c, Initial(now), es);
            && j in t.db.jobs
            && t.db.jobs[j].state in {Running, Completed, FailedReview}
  {
    ClaimsBounded(c, now, es, j);
    InitialInv(c, now);
    RunKeepsInv(c, Initial(now), es);
    var t := Run(c, Initial(now), es);
    assert RowShape(t.db.jobs[j]);
  }

  /** The attempts a failing worker reports decide its row's fate, exactly at the cap. */
  lemma FailureParksIff(c: Config, s: World, w: WorkerId, cls: ErrorClass, err: string)
    requires Inv(c, s) && Enabled(c, s, FinishFailed(w, cls, err))
    ensures var j := s.live[w].job; var t := Next(c, s, FinishFailed(w, cls, err));
            && j in t.db.jobs
            && (t.db.jobs[j].state == FailedReview <==> cls == Permanent || s.db.jobs[j].attempts >= c.maxAttempts)
            && (t.db.jobs[j].state != FailedReview ==>
                  && t.db.jobs[j].state == RetryWait
                  && forall at :: Due(t.db.jobs[j], at) <==>
                                    at >= s.now + BackoffSeconds(s.db.jobs[j].attempts) * SECOND)
            && t.db.jobs[j].lastError == Some(if |err| <= 2_000 then err else err[..2_000])
  {
    assert Holds(c, s, w);
    BackoffShape(s.live[w].attempt, s.live[w].attempt);
  }

  /** What may be claimed at once: a job just enqueued, and every job a sweep has just requeued, with the attempts it
      had and the reason. */
  lemma ReadyAtOnce(c: Config, s: World, j: JobId, key: string, ids: set<JobId>)
    requires Inv(c, s)
    requires Enabled(c, s, Enqueue(j, key)) && forall k | k in s.db.jobs :: s.db.jobs[k].idempotencyKey != key
    requires Enabled(c, s, Reclaim(ids))
    ensures var t := Next(c, s, Enqueue(j, key));
            j in t.db.jobs && t.db.jobs[j].attempts == 0 && forall at :: Due(t.db.jobs[j], at)
    ensures var t := Next(c, s, Reclaim(ids));
            forall k | k in ids ::
              && k in t.db.jobs && t.db.jobs[k].attempts == s.db.jobs[k].attempts
              && (forall at :: Due(t.db.jobs[k], at) <==> at >= s.now)
              && t.db.jobs[k].lastError == Some("lease expired; worker did not finish")
  {
  }
}

/** How far apart the attempts of one job are. */
module RetrySpacing {
  import opened Wrappers
  import opened Retries
  import opened JobTable
  import opened LeaseProtocol
  import RetryBounds

  predicate Retried(a: Attempt) {
    a.ending.Some? && a.ending.value.state == RetryWait
  }

  /** The least time attempt `n` keeps attempt `n` + 1 away: its backoff when it failed and was retried,
      a whole lease when it never reported back. */
  function Gap(c: Config, a: Attempt, n: nat): int {
    if Retried(a) then BackoffSeconds(n) * SECOND else Lease(c)
  }

  /** Each attempt but the last was retried or lost, and started its gap after the one before. */
  ghost predicate Spaced(c: Config, db: Db) {
    forall j, n: nat | (j, n) in db.attempts && (j, n + 1) in db.attempts ::
      db.attempts[(j, n + 1)].startedAt >= db.attempts[(j, n)].startedAt + Gap(c, db.attempts[(j, n)], n)
  }

  ghost predicate Started(c: Config, s: World, j: JobId)
    requires j in s.db.jobs
  {
    var job := s.db.jobs[j];
    && RowShape(job)
    && ((j, job.attempts) in s.db.attempts ==>
          var a := s.db.attempts[(j, job.attempts)];
          && a.startedAt <= s.now
          && (job.state == Running ==> a.ending.None? && job.leaseExpiresAt.value >= a.startedAt + Lease(c))
          && (job.state == RetryWait ==> job.nextAttemptAt.value >= a.startedAt + Gap(c, a, job.attempts)))
  }

  ghost predicate SpacingInv(c: Config, s: World) {
    && (forall j | j in s.db.jobs :: Started(c, s, j))
    && Spaced(c, s.db)
  }

  predicate WorkerWrites(e: Event) {
    e.FinishOk? || e.FinishFailed? || e.Beat?
  }

  lemma WorkerKeepsStarted(c: Config, s: World, e: Event, j: JobId)
    requires Inv(c, s) && Timely(c, s) && SpacingInv(c, s) && Enabled(c, s, e) && WorkerWrites(e)
    requires j in Next(c, s, e).db.jobs
    ensures Started(c, Next(c, s, e), j)
  {
    StepKeepsRowShape(c, s, e, j);
    if j in s.db.jobs { assert Started(c, s, j); }
    assert Holds(c, s, e.worker);
    BackoffShape(s.live[e.worker].attempt, s.live[e.worker].attempt);
  }

  lemma StepKeepsStarted(c: Config, s: World, e: Event, j: JobId)
    requires Inv(c, s) && Timely(c, s) && SpacingInv(c, s) && Enabled(c, s, e)
    requires j in Next(c, s, e).db.jobs
    ensures Started(c, Next(c, s, e), j)
  {
    if WorkerWrites(e) {
      WorkerKeepsStarted(c, s, e, j);
    } else {
      StepKeepsRowShape(c, s, e, j);
      if j in s.db.jobs { assert Started(c, s, j); }
    }
  }

  lemma AttemptsLeftAlone(c: Config, s: World, e: Event)
    requires SpacingInv(c, s) && Enabled(c, s, e) && Next(c, s, e).db.attempts == s.db.attempts
    ensures Spaced(c, Next(c, s, e).db)
  {
  }

  lemma FinishKeepsSpaced(c: Config, s: World, e: Event)
    requires Inv(c, s) && Timely(c, s) && SpacingInv(c, s) && Enabled(c, s, e) && (e.FinishOk? || e.FinishFailed?)
    ensures Spaced(c, Next(c, s, e).db)
  {
    assert Holds(c, s, e.worker);
  }

  lemma ClaimKeepsSpaced(c: Config, s: World, e: Event)
    requires Inv(c, s) && Timely(c, s) && SpacingInv(c, s) && Enabled(c, s, e) && e.ClaimJob?
    ensures Spaced(c, Next(c, s, e).db)
  {
    assert Started(c, s, e.id);
    StepKeepsNumbers(c, s, e);
  }

  lemma StepKeepsSpaced(c: Config, s: World, e: Event)
    requires Inv(c, s) && Timely(c, s) && SpacingInv(c, s) && Enabled(c, s, e)
    ensures Spaced(c, Next(c, s, e).db)
  {
    if e.FinishOk? || e.FinishFailed? {
      FinishKeepsSpaced(c, s, e);
    } else if e.ClaimJob? {
      ClaimKeepsSpaced(c, s, e);
    } else {
      AttemptsLeftAlone(c, s, e);
    }
  }

  lemma {:induction false} RunKeepsSpacing(c: Config, s: World, es: seq<Event>)
    requires Inv(c, s) && TimelyRun(c, s, es) && SpacingInv(c, s)
    ensures Valid(c, s, es) && SpacingInv(c, Run(c, s, es))
    decreases |es|
  {
    if es != [] {
      var t := Next(c, s, es[0]);
      StepKeepsInv(c, s, es[0]);
      StepKeepsSpaced(c, s, es[0]);
      forall j | j in t.db.jobs ensures Started(c, t, j) { StepKeepsStarted(c, s, es[0], j); }
      RunKeepsSpacing(c, t, es[1..]);
    }
  }

  /** In every timely run, crashes and reclaims included, consecutive attempts of a job are a backoff or a
      lease apart. */
  lemma AttemptsSpaced(c: Config, now: Instant, es: seq<Event>)
    requires TimelyRun(c, Initial(now), es)
    ensures Valid(c, Initial(now), es) && Spaced(c, Run(c, Initial(now), es).db)
  {
    InitialInv(c, now);
    RunKeepsSpacing(c, Initial(now), es);
  }

  /** In every timely run a final write lands on its worker's own attempt, still running and not yet ended, and leaves
      the row and the attempt saying the same. So each attempt ends once, by the worker that claimed it. */
  lemma FinalWritesAreOwn(c: Config, now: Instant, es: seq<Event>, k: nat)
    requires TimelyRun(c, Initial(now), es) && k < |es| && (es[k].FinishOk? || es[k].FinishFailed?)
    ensures Valid(c, Initial(now), es[..k]) && Enabled(c, Run(c, Initial(now), es[..k]), es[k])
    ensures var s := Run(c, Initial(now), es[..k]);
            var me, t := s.live[es[k].worker], Next(c, s, es[k]);
            && me.job in s.db.jobs && (me.job, me.attempt) in s.db.attempts
            && s.db.jobs[me.job].state == Running && s.db.jobs[me.job].attempts == me.attempt
            && s.db.attempts[(me.job, me.attempt)].ending.None?
            && t.db.jobs[me.job].attempts == me.attempt
            && t.db.attempts[(me.job, me.attempt)].ending.Some?
            && t.db.attempts[(me.job, me.attempt)].ending.value.state == t.db.jobs[me.job].state
            && (t.db.jobs[me.job].state == Completed <==> es[k].FinishOk?)
            && forall r | r in s.db.attempts && r != (me.job, me.attempt) :: t.db.attempts[r] == s.db.attempts[r]
  {
    PrefixesAreTimely(c, Initial(now), es, k);
    InitialInv(c, now);
    RunKeepsInv(c, Initial(now), es[..k]);
    RunKeepsSpacing(c, Initial(now), es[..k]);
    var s := Run(c, Initial(now), es[..k]);
    assert Holds(c, s, es[k].worker);
    assert Started(c, s, s.live[es[k].worker].job);
  }

  /** While a job is never reclaimed, every attempt before its current one ended in a scheduled retry. */
  ghost predicate AllRetried(s: World, j: JobId) {
    forall n: nat | (j, n) in s.db.attempts ::
      && (n < RetryBounds.AttemptsAt(s, j) ==> Retried(s.db.attempts[(j, n)]))
      && (j in s.db.jobs && s.db.jobs[j].state == RetryWait ==> Retried(s.db.attempts[(j, n)]))
  }

  lemma {:induction false} UnreclaimedRunsAllRetried(c: Config, s: World, es: seq<Event>, j: JobId)
    requires Inv(c, s) && TimelyRun(c, s, es) && AllRetried(s, j)
    requires RetryBounds.ReclaimsOf(j, es) == 0
    ensures Valid(c, s, es) && Inv(c, Run(c, s, es)) && AllRetried(Run(c, s, es), j)
    decreases |es|
  {
    if es != [] {
      StepKeepsInv(c, s, es[0]);
      if es[0].FinishOk? || es[0].FinishFailed? { assert Holds(c, s, es[0].worker); }
      UnreclaimedRunsAllRetried(c, Next(c, s, es[0]), es[1..], j);
    }
  }

  lemma {:induction false} SumOfGaps(c: Config, s: World, j: JobId, n: nat)
    requires Inv(c, s) && Spaced(c, s.db) && j in s.db.jobs && AllRetried(s, j)
    requires n < s.db.jobs[j].attempts
    ensures (j, 1) in s.db.attempts && (j, n + 1) in s.db.attempts
    ensures s.db.attempts[(j, n + 1)].startedAt >= s.db.attempts[(j, 1)].startedAt + TotalBackoff(n) * SECOND
  {
    if n > 0 {
      SumOfGaps(c, s, j, n - 1);
      assert (j, n) in s.db.attempts;
    }
  }

  /** With no reclaims, attempt n + 1 starts at least the first n backoffs after the first claim:
      60 * (2^n - 1) seconds up to the ninth retry, then six hours more for each. */
  lemma RetrySchedule(c: Config, now: Instant, es: seq<Event>, j: JobId, n: nat)
    requires TimelyRun(c, Initial(now), es)
    requires RetryBounds.ReclaimsOf(j, es) == 0
    requires n < RetryBounds.ClaimsOf(j, es)
    ensures Valid(c, Initial(now), es)
    ensures var started := Run(c, Initial(now), es).db.attempts;
            && (j, 1) in started && (j, n + 1) in started
            && started[(j, n + 1)].startedAt - started[(j, 1)].startedAt >=
               (if n <= 9 then 60 * (Pow2(n) - 1) else 30_660 + 21_600 * (n - 9)) * SECOND
  {
    InitialInv(c, now);
    RetryBounds.ClaimsBounded(c, now, es, j);
    AttemptsSpaced(c, now, es);
    UnreclaimedRunsAllRetried(c, Initial(now), es, j);
    SumOfGaps(c, Run(c, Initial(now), es), j, n);
    TotalBackoffClosedForm(n);
  }
}
