/** One worker's life among others over the job store, and the sweep that drives it. Every method is proved to be a
    run of the lease protocol's events, heartbeats and everybody else's steps included; where that run is timely, the
    protocol's theorems hold of it. */
module GraphRunner {
  import opened Wrappers
  import opened Retries
  import opened JobTable
  import opened LeaseProtocol
  import Heartbeats

  /** How the graph run behind a claimed job ends. `Dies` is a cancelled task or a failed final write. */
  datatype Verdict = Completes | Fails(errorClass: ErrorClass, error: string) | Dies

  /** What happens while a graph runs: somebody else's step (or time passing), or this worker's heartbeat waking,
      with a renewal that lands or fails. */
  datatype Turn = Other(event: Event) | Wake(renewed: bool)

  /** One execution's surroundings: others' steps before the claim, the turns while the graph runs, how it ends, and
      others' steps between the cancelled heartbeat and the final write of a success. */
  datatype Script = Script(before: seq<Event>, during: seq<Turn>, verdict: Verdict, closing: seq<Event>)

  datatype Executed = Returned(state: JobState) | Raised

  datatype SweepReport = SweepReport(reclaimed: nat, pickedUp: nat, completed: nat, failed: nat, remaining: nat)

  /** Who acts in an event; nobody in particular for the clock, the queue and the sweep. */
  function Actor(e: Event): Option<WorkerId> {
    match e
    case Tick(_) => None
    case Enqueue(_, _) => None
    case Reclaim(_) => None
    case ClaimJob(w, _) => Some(w)
    case Beat(w) => Some(w)
    case MissBeat(w) => Some(w)
    case CancelBeat(w) => Some(w)
    case FinishOk(w) => Some(w)
    case FinishFailed(w, _, _) => Some(w)
    case Crash(w) => Some(w)
  }

  // ---- Runs ----

  lemma {:induction false} RunConcat(c: Config, s: World, a: seq<Event>, b: seq<Event>)
    requires Valid(c, s, a) && Valid(c, Run(c, s, a), b)
    ensures Valid(c, s, a + b) && Run(c, s, a + b) == Run(c, Run(c, s, a), b)
    decreases |a|
  {
    if a == [] {
      assert a + b == b;
    } else {
      RunConcat(c, Next(c, s, a[0]), a[1..], b);
      assert (a + b)[1..] == a[1..] + b;
    }
  }

  /** This worker's own steps within a run. */
  function OwnSteps(es: seq<Event>, w: WorkerId): seq<Event> {
    if es == [] then []
    else
      var front, last := OwnSteps(es[..|es| - 1], w), es[|es| - 1];
      if Actor(last) == Some(w) then front + [last] else front
  }

  lemma {:induction false} OwnStepsConcat(a: seq<Event>, b: seq<Event>, w: WorkerId)
    ensures OwnSteps(a + b, w) == OwnSteps(a, w) + OwnSteps(b, w)
  {
    if b == [] {
      assert a + b == a;
    } else {
      assert (a + b)[..|a + b| - 1] == a + b[..|b| - 1];
      OwnStepsConcat(a, b[..|b| - 1], w);
    }
  }

  predicate IsBeat(e: Event) {
    e.Beat? || e.MissBeat?
  }

  predicate OnlyBeats(es: seq<Event>) {
    forall i | 0 <= i < |es| :: IsBeat(es[i])
  }

  /** The steps a worker takes to end an execution: the heartbeat is cancelled before a success is written, but after a
      failure is. */
  function LastSteps(w: WorkerId, verdict: Verdict): seq<Event> {
    match verdict
    case Completes => [CancelBeat(w), FinishOk(w)]
    case Fails(cls, err) => [FinishFailed(w, cls, err)]
    case Dies => [Crash(w)]
  }

  ghost predicate IsRun(c: Config, s: World, es: seq<Event>, t: World) {
    Valid(c, s, es) && Run(c, s, es) == t
  }

  lemma IsRunThen(c: Config, s: World, a: seq<Event>, u: World, b: seq<Event>, t: World)
    requires IsRun(c, s, a, u) && IsRun(c, u, b, t)
    ensures IsRun(c, s, a + b, t)
  {
    RunConcat(c, s, a, b);
  }

  lemma IsRunOne(c: Config, s: World, e: Event)
    requires Enabled(c, s, e)
    ensures IsRun(c, s, [e], Next(c, s, e))
  {
  }

  // ---- What an execution is ----

  predicate OwnShape(own: seq<Event>, w: WorkerId, id: JobId, verdict: Verdict) {
    var last := LastSteps(w, verdict);
    && |own| >= 1 + |last|
    && own[0] == ClaimJob(w, id)
    && OnlyBeats(own[1..|own| - |last|])
    && own[|own| - |last|..] == last
  }

  /** The row and the attempt row say how the execution ended, and so does what it returns. */
  ghost predicate Concluded(c: Config, t: World, id: JobId, attempt: nat, verdict: Verdict, r: Executed) {
    && id in t.db.jobs && (id, attempt) in t.db.attempts
    && var row, ending := t.db.jobs[id], t.db.attempts[(id, attempt)].ending;
       match verdict
       case Completes =>
         && r == Returned(Completed)
         && row.state == Completed && row.attempts == attempt && row.nextAttemptAt.None? && row.leaseExpiresAt.None?
         && ending == Some(Ending(Completed, t.now, None, None))
       case Fails(cls, err) =>
         var parked := cls == Permanent || attempt >= c.maxAttempts;
         && r == Returned(if parked then FailedReview else RetryWait)
         && row.state == (if parked then FailedReview else RetryWait)
         && row.attempts == attempt && row.leaseExpiresAt.None?
         && row.nextAttemptAt == (if parked then None else Some(t.now + BackoffSeconds(attempt) * SECOND))
         && row.lastError == Some(if |err| <= 2_000 then err else err[..2_000])
         && ending == Some(Ending(row.state, t.now, Some(cls), Some(err)))
       case Dies => r == Raised
  }

  /** One execution of job `id` by worker `w`, whatever else went on meanwhile. A job that is not due is left alone and
      its state reported; a claim refused by the attempt number raises; otherwise the worker claims, beats, and ends as
      the verdict says, on the attempt it claimed. */
  ghost predicate Execution(c: Config, s: World, w: WorkerId, id: JobId, verdict: Verdict, es: seq<Event>, t: World,
                            r: Executed)
  {
    && IsRun(c, s, es, t) && w !in t.live
    && if !(id in s.db.jobs && Due(s.db.jobs[id], s.now)) then
         es == [] && r == Returned(if id in s.db.jobs then s.db.jobs[id].state else Cancelled)
       else
         var attempt := s.db.jobs[id].attempts + 1;
         if (id, attempt) in s.db.attempts then es == [ClaimJob(w, id)] && r == Raised
         else
           && es != []
           && OwnShape(OwnSteps(es, w), w, id, verdict)
           && EndsOwn(c, s, es, w, id, attempt)
           && Concluded(c, t, id, attempt, verdict, r)
  }

  /** The last step is the worker's own, taken while it lives on that job and attempt. */
  ghost predicate EndsOwn(c: Config, s: World, es: seq<Event>, w: WorkerId, id: JobId, attempt: nat) {
    && es != [] && Actor(es[|es| - 1]) == Some(w)
    && Valid(c, s, es[..|es| - 1])
    && var u := Run(c, s, es[..|es| - 1]);
       w in u.live && u.live[w].job == id && u.live[w].attempt == attempt
  }

  // ---- The running system ----

  class Runtime {
    const config: Config
    const store: JobStore
    var now: Instant
    var live: map<WorkerId, Worker>

    constructor (config: Config, now: Instant)
      ensures this.config == config && fresh(store) && View() == Initial(now)
    {
      this.config := config;
      this.store := new JobStore();
      this.now := now;
      this.live := map[];
    }

    function View(): World
      reads this, store
    {
      World(now, Db(store.jobs, store.attempts), live)
    }

    /** Claim and attempt row in one transaction: both land, or neither does. */
    method BeginAttempt(w: WorkerId, id: JobId) returns (claimed: bool, raised: bool)
      requires w !in live
      modifies this`live, store
      ensures var s := old(View());
              && (claimed || raised <==> Enabled(config, s, ClaimJob(w, id)))
              && (raised ==> !claimed && View() == s)
              && (claimed ==> w in live && live[w].attempt == s.db.jobs[id].attempts + 1)
              && View() == if claimed || raised then Next(config, s, ClaimJob(w, id)) else s
    {
      var before := store.jobs;
      claimed, raised := false, false;
      var job := store.ClaimJob(id, config.leaseSeconds, now);
      if job.Some? {
        var inserted := store.StartAttempt(id, job.value.attempts, now);
        if inserted {
          claimed := true;
          live := live[w := Worker(id, job.value.attempts, now, now + Interval(config), 0, now, Beating)];
        } else {
          store.jobs := before;
          raised := true;
        }
      }
    }

    /** The heartbeat wakes: it renews the lease, or the renewal fails and is only logged; then it sleeps again. */
    method HeartbeatTurn(w: WorkerId, renewed: bool)
      requires w in live && live[w].phase == Beating && live[w].nextBeat <= now
      modifies this`live, store
      ensures View() == Next(config, old(View()), if renewed then Beat(w) else MissBeat(w))
    {
      var me := live[w];
      if renewed {
        store.RenewLease(me.job, config.leaseSeconds, now);
        live := live[w := me.(touchedAt := now, nextBeat := now + Interval(config), missed := 0)];
      } else {
        live := live[w := me.(nextBeat := now + Interval(config), missed := me.missed + 1)];
      }
    }

    /** The final write: the transition and the attempt's ending in one transaction. */
    method RecordOutcome(w: WorkerId, t: JobTransition, cls: Option<ErrorClass>, err: Option<string>)
      requires w in live
      modifies this`live, store
      ensures View() == AfterFinish(old(View()), w, t, cls, err)
    {
      var _ := store.ApplyTransition(live[w].job, t);
      store.FinishAttempt(live[w].job, live[w].attempt, Ending(t.state, now, cls, err));
      live := live - {w};
    }

    method ReclaimRowsOf(ids: set<JobId>)
      requires forall j | j in ids :: j in store.jobs && Stale(store.jobs[j], now)
      modifies store
      ensures View() == Next(config, old(View()), Reclaim(ids))
    {
      var order := SelectLowest(ids, |ids|);
      AllSelected(order, ids, |ids|);
      store.ReclaimEach(order, now);
    }

    /** Any step of the protocol, carried out on the table by the operation that makes it. */
    method Perform(e: Event)
      requires Enabled(config, View(), e)
      modifies this, store
      ensures View() == Next(config, old(View()), e)
    {
      match e {
        case Tick(elapsed) => now := now + elapsed;
        case Enqueue(id, key) => var _, _ := store.EnqueueJob(id, key);
        case ClaimJob(w, id) => var _, _ := BeginAttempt(w, id);
        case Beat(w) => HeartbeatTurn(w, true);
        case MissBeat(w) => HeartbeatTurn(w, false);
        case CancelBeat(w) => live := live[w := live[w].(phase := Finishing, cancelledAt := now)];
        case FinishOk(w) => RecordOutcome(w, Succeed(live[w].attempt), None, None);
        case FinishFailed(w, cls, err) =>
          RecordOutcome(w, Fail(live[w].attempt, err, cls, config.maxAttempts, now), Some(cls), Some(err));
        case Crash(w) => live := live - {w};
        case Reclaim(ids) => ReclaimRowsOf(ids);
      }
    }

    /** Others' steps, as far as each is possible when its turn comes. */
    method PlayOthers(w: WorkerId, script: seq<Event>) returns (ghost es: seq<Event>)
      modifies this, store
      ensures IsRun(config, old(View()), es, View())
      ensures OwnSteps(es, w) == []
      ensures StillThere(w, old(View()), View())
    {
      es := [];
      for i := 0 to |script|
        invariant IsRun(config, old(View()), es, View())
        invariant OwnSteps(es, w) == []
        invariant StillThere(w, old(View()), View())
      {
        var e := script[i];
        if Actor(e) != Some(w) && Enabled(config, View(), e) {
          ghost var before := View();
          Perform(e);
          OthersKeep(config, before, e, w);
          IsRunOne(config, before, e);
          IsRunThen(config, old(View()), es, before, [e], View());
          assert (es + [e])[..|es|] == es;
          es := es + [e];
        }
      }
    }

    /** One turn while the graph runs. */
    method TakeTurn(w: WorkerId, turn: Turn) returns (ghost step: seq<Event>)
      requires w in live && live[w].phase == Beating
      modifies this, store
      ensures IsRun(config, old(View()), step, View())
      ensures OnlyBeats(OwnSteps(step, w))
      ensures StillBeating(w, old(View()), View())
    {
      step := [];
      match turn {
        case Other(e) =>
          if Actor(e) != Some(w) && Enabled(config, View(), e) {
            IsRunOne(config, View(), e);
            OthersKeep(config, View(), e, w);
            Perform(e);
            step := [e];
          }
        case Wake(renewed) =>
          if live[w].nextBeat <= now {
            ghost var e := if renewed then Beat(w) else MissBeat(w);
            IsRunOne(config, View(), e);
            BeatKeeps(config, View(), e);
            HeartbeatTurn(w, renewed);
            step := [e];
          }
      }
    }

    /** The graph runs: others act, time passes, and the heartbeat renews the lease each time it wakes. */
    method RunGraph(w: WorkerId, turns: seq<Turn>) returns (ghost es: seq<Event>)
      requires w in live && live[w].phase == Beating
      modifies this, store
      ensures IsRun(config, old(View()), es, View())
      ensures OnlyBeats(OwnSteps(es, w))
      ensures StillBeating(w, old(View()), View())
    {
      es := [];
      for i := 0 to |turns|
        invariant IsRun(config, old(View()), es, View())
        invariant OnlyBeats(OwnSteps(es, w))
        invariant StillBeating(w, old(View()), View())
      {
        ghost var before := View();
        var step := TakeTurn(w, turns[i]);
        IsRunThen(config, old(View()), es, before, step, View());
        OwnStepsConcat(es, step, w);
        es := es + step;
      }
    }

    /** The worker ends its execution; after a cancelled heartbeat others may still act before the write. */
    method Conclude(w: WorkerId, script: Script) returns (result: Executed, ghost es: seq<Event>)
      requires w in live && live[w].phase == Beating
      requires live[w].job in store.jobs && (live[w].job, live[w].attempt) in store.attempts
      modifies this, store
      ensures IsRun(config, old(View()), es, View()) && w !in live
      ensures OwnSteps(es, w) == LastSteps(w, script.verdict)
      ensures EndsOwn(config, old(View()), es, w, old(live[w].job), old(live[w].attempt))
      ensures Concluded(config, View(), old(live[w].job), old(live[w].attempt), script.verdict, result)
    {
      ghost var s := View();
      var me := live[w];
      match script.verdict {
        case Completes =>
          Perform(CancelBeat(w));
          ghost var cancelled := View();
          var mid := PlayOthers(w, script.closing);
          ghost var u := View();
          Perform(FinishOk(w));
          result := Returned(Completed);
          CompletedRow(config, u, w);
          SuccessSteps(config, s, cancelled, mid, u, w);
          es := [CancelBeat(w)] + mid + [FinishOk(w)];
        case Fails(cls, err) =>
          var t := Fail(me.attempt, err, cls, config.maxAttempts, now);
          Perform(FinishFailed(w, cls, err));
          result := Returned(t.state);
          es := [FinishFailed(w, cls, err)];
          OneStep(config, s, es[0], w);
        case Dies =>
          Perform(Crash(w));
          result := Raised;
          es := [Crash(w)];
          OneStep(config, s, es[0], w);
      }
    }

    /** Claim one job, run its graph under a heartbeat, and write down how it ended. */
    method ExecuteJob(w: WorkerId, id: JobId, script: Script) returns (result: Executed, ghost es: seq<Event>)
      requires w !in live
      modifies this, store
      ensures Execution(config, old(View()), w, id, script.verdict, es, View(), result)
    {
      ghost var s := View();
      var claimed, raised := BeginAttempt(w, id);
      if raised {
        es := [ClaimJob(w, id)];
        IsRunOne(config, s, ClaimJob(w, id));
        return Raised, es;
      }
      if !claimed {
        es := [];
        return Returned(if id in store.jobs then store.jobs[id].state else Cancelled), es;
      }
      ghost var s1 := View();
      IsRunOne(config, s, ClaimJob(w, id));
      var beats := RunGraph(w, script.during);
      ghost var s2 := View();
      ghost var last;
      result, last := Conclude(w, script);
      es := [ClaimJob(w, id)] + beats + last;
      IsRunThen(config, s, [ClaimJob(w, id)], s1, beats, s2);
      IsRunThen(config, s, [ClaimJob(w, id)] + beats, s2, last, View());
      EndsOwnLater(config, s, [ClaimJob(w, id)] + beats, s2, last, w, id, s.db.jobs[id].attempts + 1);
      OwnShapeOf(w, id, script.verdict, beats, last);
    }

    /** Others act until the next job's turn, then it is executed. */
    method RunNext(w: WorkerId, id: JobId, script: Script)
      returns (result: Executed, ghost gap: seq<Event>, ghost start: World, ghost steps: seq<Event>)
      requires w !in live
      modifies this, store
      ensures w !in live && IsRun(config, old(View()), gap, start)
      ensures Execution(config, start, w, id, script.verdict, steps, View(), result)
    {
      gap := PlayOthers(w, script.before);
      start := View();
      result, steps := ExecuteJob(w, id, script);
    }

    /** One more job of a batch. */
    method RunOneOf(w: WorkerId, id: JobId, scripts: map<JobId, Script>, ghost completed: nat, ghost failed: nat,
                    ghost s: World, ghost ran: seq<JobId>, ghost before: seq<Event>, ghost doneBefore: seq<Done>)
      returns (result: Executed, ghost es: seq<Event>, ghost done: seq<Done>)
      requires w !in live && Underway(config, s, View(), w, ran, scripts, before, doneBefore, completed, failed)
      modifies this, store
      ensures w !in live
      ensures Underway(config, s, View(), w, ran + [id], scripts, es, done,
                       completed + (if CountsAsCompleted(result) then 1 else 0),
                       failed + (if CountsAsFailed(result) then 1 else 0))
    {
      ghost var u := View();
      ghost var gap, start, steps;
      result, gap, start, steps := RunNext(w, id, ScriptFor(scripts, id));
      ghost var d := Done(id, |before + gap|, start, steps, View(), result);
      BatchStep(config, s, u, w, ran, scripts, before, gap, doneBefore, d, completed, failed);
      es, done := before + gap + steps, doneBefore + [d];
    }

    /** Run the picked jobs one after the other. A job that raises is counted and does not stop the batch. */
    method RunBatch(w: WorkerId, ids: seq<JobId>, scripts: map<JobId, Script>)
      returns (completed: nat, failed: nat, ghost es: seq<Event>, ghost done: seq<Done>)
      requires w !in live
      modifies this, store
      ensures IsRun(config, old(View()), es, View()) && w !in live
      ensures Batch(config, old(View()), w, ids, scripts, es, done)
      ensures completed == HowMany(CountsAsCompleted, done) && failed == HowMany(CountsAsFailed, done)
    {
      ghost var s := View();
      completed, failed, es, done := 0, 0, [], [];
      for i := 0 to |ids|
        invariant w !in live && Underway(config, s, View(), w, ids[..i], scripts, es, done, completed, failed)
      {
        assert ids[..i + 1] == ids[..i] + [ids[i]];
        var result;
        result, es, done := RunOneOf(w, ids[i], scripts, completed, failed, s, ids[..i], es, done);
        if CountsAsCompleted(result) { completed := completed + 1; }
        else if CountsAsFailed(result) { failed := failed + 1; }
      }
      assert ids[..|ids|] == ids;
    }

    /** One pass: reclaim, then run what is due. `busy` are rows that other transactions hold at the time; `between` is
        what others do after the reclaim has committed. */
    method SweepOnce(w: WorkerId, limit: nat, busy: set<JobId>, between: seq<Event>, scripts: map<JobId, Script>)
      returns (report: SweepReport, ghost es: seq<Event>, ghost sweep: Sweep)
      requires w !in live
      modifies this, store
      ensures IsRun(config, old(View()), es, View()) && w !in live
      ensures report.reclaimed == |sweep.reclaimed|
      ensures LowestOf(sweep.order, StaleIds(old(store.jobs), old(now)) - busy, limit)
      ensures Members(sweep.order) == sweep.reclaimed
      ensures IsRun(config, old(View()), [Reclaim(sweep.reclaimed)] + sweep.gap, sweep.chosenIn)
      ensures OwnSteps(sweep.gap, w) == []
      ensures LowestOf(sweep.picked, DueIds(sweep.chosenIn.db.jobs, sweep.chosenIn.now) - busy, limit)
      ensures Batch(config, sweep.chosenIn, w, sweep.picked, scripts, sweep.steps, sweep.done)
      ensures es == [Reclaim(sweep.reclaimed)] + sweep.gap + sweep.steps
      ensures report.pickedUp == |sweep.picked|
      ensures report.completed == HowMany(CountsAsCompleted, sweep.done)
      ensures report.failed == HowMany(CountsAsFailed, sweep.done)
      ensures report.remaining == |DueIds(store.jobs, now)|
    {
      ghost var s := View();
      var reclaimed, order := store.ReclaimExpiredLeases(limit, busy, now);
      IsRunOne(config, s, Reclaim(Members(order)));
      ghost var u := View();
      var gap := PlayOthers(w, between);
      ghost var chosenIn := View();
      IsRunThen(config, s, [Reclaim(Members(order))], u, gap, chosenIn);
      var ids := store.DueJobIds(limit, busy, now);
      var completed, failed, steps, done := RunBatch(w, ids, scripts);
      IsRunThen(config, s, [Reclaim(Members(order))] + gap, chosenIn, steps, View());
      var remaining := store.CountDueJobs(now);
      report := SweepReport(reclaimed, |ids|, completed, failed, remaining);
      sweep := Sweep(Members(order), order, gap, chosenIn, ids, steps, done);
      es := [Reclaim(Members(order))] + gap + steps;
    }
  }

  /** One execution within a longer run, from its position there. */
  datatype Done = Done(id: JobId, from: nat, start: World, steps: seq<Event>, end: World, result: Executed)

  /** What one sweep did: whom it reclaimed, what others did next, whom it picked and where that left off. */
  datatype Sweep = Sweep(reclaimed: set<JobId>, order: seq<JobId>, gap: seq<Event>, chosenIn: World, picked: seq<JobId>,
                         steps: seq<Event>, done: seq<Done>)

  function ScriptFor(scripts: map<JobId, Script>, id: JobId): Script {
    if id in scripts then scripts[id] else Script([], [], Dies, [])
  }

  ghost predicate StandsIn(c: Config, s: World, es: seq<Event>, d: Done) {
    && d.from + |d.steps| <= |es|
    && es[d.from..d.from + |d.steps|] == d.steps
    && IsRun(c, s, es[..d.from], d.start)
  }

  /** An execution that is part of this run, to the end its script called for. */
  ghost predicate RanWithin(c: Config, s: World, w: WorkerId, scripts: map<JobId, Script>, es: seq<Event>, d: Done) {
    && StandsIn(c, s, es, d)
    && Execution(c, d.start, w, d.id, ScriptFor(scripts, d.id).verdict, d.steps, d.end, d.result)
  }

  /** Every picked job was executed, in order, each from where the run stood and to the end its script called for. */
  ghost predicate Batch(c: Config, s: World, w: WorkerId, ids: seq<JobId>, scripts: map<JobId, Script>, es: seq<Event>,
                        done: seq<Done>)
  {
    && |done| == |ids|
    && (forall i | 0 <= i < |ids| ::
          done[i].id == ids[i] && RanWithin(c, s, w, scripts, es, done[i]))
    && (forall i, j | 0 <= i < j < |ids| :: done[i].from + |done[i].steps| <= done[j].from)
  }

  predicate CountsAsCompleted(r: Executed) {
    r == Returned(Completed)
  }

  predicate CountsAsFailed(r: Executed) {
    r.Raised? || r.state in {FailedReview, Cancelled}
  }

  function HowMany(p: Executed -> bool, done: seq<Done>): nat {
    if done == [] then 0 else HowMany(p, done[..|done| - 1]) + (if p(done[|done| - 1].result) then 1 else 0)
  }

  lemma HowManyNext(p: Executed -> bool, done: seq<Done>, d: Done)
    ensures HowMany(p, done + [d]) == HowMany(p, done) + (if p(d.result) then 1 else 0)
  {
    assert (done + [d])[..|done|] == done;
  }

  lemma StandsLonger(c: Config, s: World, es: seq<Event>, more: seq<Event>, d: Done)
    requires StandsIn(c, s, es, d)
    ensures StandsIn(c, s, es + more, d)
  {
    assert (es + more)[..d.from] == es[..d.from];
    assert (es + more)[d.from..d.from + |d.steps|] == es[d.from..d.from + |d.steps|];
  }

  lemma BatchLonger(c: Config, s: World, w: WorkerId, ids: seq<JobId>, scripts: map<JobId, Script>, es: seq<Event>,
                    more: seq<Event>, done: seq<Done>)
    requires Batch(c, s, w, ids, scripts, es, done)
    ensures Batch(c, s, w, ids, scripts, es + more, done)
  {
    forall i | 0 <= i < |ids| ensures RanWithin(c, s, w, scripts, es + more, done[i]) {
      assert RanWithin(c, s, w, scripts, es, done[i]);
      StandsLonger(c, s, es, more, done[i]);
    }
  }

  lemma BatchSnoc(c: Config, s: World, w: WorkerId, ids: seq<JobId>, scripts: map<JobId, Script>, es: seq<Event>,
                  done: seq<Done>, d: Done)
    requires Batch(c, s, w, ids, scripts, es, done) && RanWithin(c, s, w, scripts, es, d)
    requires forall i | 0 <= i < |done| :: done[i].from + |done[i].steps| <= d.from
    ensures Batch(c, s, w, ids + [d.id], scripts, es, done + [d])
  {
    var all := done + [d];
    forall i | 0 <= i < |all| ensures all[i].id == (ids + [d.id])[i] && RanWithin(c, s, w, scripts, es, all[i]) {
      if i < |done| { assert all[i] == done[i]; }
    }
  }

  lemma BatchNext(c: Config, s: World, w: WorkerId, ids: seq<JobId>, scripts: map<JobId, Script>, es: seq<Event>,
                  gap: seq<Event>, done: seq<Done>, d: Done)
    requires Batch(c, s, w, ids, scripts, es, done)
    requires d.from == |es + gap| && IsRun(c, s, es + gap, d.start)
    requires Execution(c, d.start, w, d.id, ScriptFor(scripts, d.id).verdict, d.steps, d.end, d.result)
    ensures Batch(c, s, w, ids + [d.id], scripts, es + gap + d.steps, done + [d])
  {
    var all := es + gap + d.steps;
    assert all[..d.from] == es + gap && all[d.from..] == d.steps;
    BatchLonger(c, s, w, ids, scripts, es, gap, done);
    BatchLonger(c, s, w, ids, scripts, es + gap, d.steps, done);
    forall i | 0 <= i < |done| ensures done[i].from + |done[i].steps| <= d.from {
      assert RanWithin(c, s, w, scripts, es, done[i]);
    }
    BatchSnoc(c, s, w, ids, scripts, all, done, d);
  }

  /** A batch in progress: what ran from `s` to `u`, and how often it completed and failed. */
  ghost predicate Underway(c: Config, s: World, u: World, w: WorkerId, ids: seq<JobId>, scripts: map<JobId, Script>,
                           es: seq<Event>, done: seq<Done>, completed: nat, failed: nat)
  {
    && IsRun(c, s, es, u) && Batch(c, s, w, ids, scripts, es, done)
    && completed == HowMany(CountsAsCompleted, done) && failed == HowMany(CountsAsFailed, done)
  }

  /** One more job: the run goes on, the batch grows, and the counters move by what it ended as. */
  lemma BatchStep(c: Config, s: World, u: World, w: WorkerId, ids: seq<JobId>, scripts: map<JobId, Script>,
                  es: seq<Event>, gap: seq<Event>, done: seq<Done>, d: Done, completed: nat, failed: nat)
    requires Underway(c, s, u, w, ids, scripts, es, done, completed, failed)
    requires IsRun(c, u, gap, d.start) && d.from == |es + gap|
    requires Execution(c, d.start, w, d.id, ScriptFor(scripts, d.id).verdict, d.steps, d.end, d.result)
    ensures Underway(c, s, d.end, w, ids + [d.id], scripts, es + gap + d.steps, done + [d],
                     completed + (if CountsAsCompleted(d.result) then 1 else 0),
                     failed + (if CountsAsFailed(d.result) then 1 else 0))
  {
    IsRunThen(c, s, es, u, gap, d.start);
    IsRunThen(c, s, es + gap, d.start, d.steps, d.end);
    BatchNext(c, s, w, ids, scripts, es, gap, done, d);
    HowManyNext(CountsAsCompleted, done, d);
    HowManyNext(CountsAsFailed, done, d);
  }

  lemma CompletedRow(c: Config, u: World, w: WorkerId)
    requires Enabled(c, u, FinishOk(w)) && u.live[w].job in u.db.jobs
    requires (u.live[w].job, u.live[w].attempt) in u.db.attempts
    ensures Concluded(c, Next(c, u, FinishOk(w)), u.live[w].job, u.live[w].attempt, Completes, Returned(Completed))
  {
  }

  lemma OneStep(c: Config, s: World, e: Event, w: WorkerId)
    requires Enabled(c, s, e) && Actor(e) == Some(w) && w in s.live
    ensures IsRun(c, s, [e], Next(c, s, e)) && OwnSteps([e], w) == [e]
    ensures EndsOwn(c, s, [e], w, s.live[w].job, s.live[w].attempt)
  {
    assert [e][..0] == [];
  }

  lemma SuccessSteps(c: Config, s: World, cancelled: World, mid: seq<Event>, u: World, w: WorkerId)
    requires Enabled(c, s, CancelBeat(w)) && cancelled == Next(c, s, CancelBeat(w)) && IsRun(c, cancelled, mid, u)
    requires OwnSteps(mid, w) == [] && StillThere(w, cancelled, u)
    ensures var es := [CancelBeat(w)] + mid + [FinishOk(w)];
            && IsRun(c, s, es, Next(c, u, FinishOk(w)))
            && OwnSteps(es, w) == LastSteps(w, Completes)
            && EndsOwn(c, s, es, w, s.live[w].job, s.live[w].attempt)
  {
    var es := [CancelBeat(w)] + mid + [FinishOk(w)];
    OneStep(c, s, CancelBeat(w), w);
    OneStep(c, u, FinishOk(w), w);
    IsRunThen(c, s, [CancelBeat(w)], cancelled, mid, u);
    IsRunThen(c, s, [CancelBeat(w)] + mid, u, [FinishOk(w)], Next(c, u, FinishOk(w)));
    OwnStepsConcat([CancelBeat(w)], mid, w);
    OwnStepsConcat([CancelBeat(w)] + mid, [FinishOk(w)], w);
    assert es[..|es| - 1] == [CancelBeat(w)] + mid;
  }

  lemma EndsOwnLater(c: Config, s: World, first: seq<Event>, u: World, last: seq<Event>, w: WorkerId, id: JobId,
                     attempt: nat)
    requires IsRun(c, s, first, u) && EndsOwn(c, u, last, w, id, attempt)
    ensures EndsOwn(c, s, first + last, w, id, attempt)
  {
    assert (first + last)[..|first + last| - 1] == first + last[..|last| - 1];
    RunConcat(c, s, first, last[..|last| - 1]);
  }

  lemma OwnShapeOf(w: WorkerId, id: JobId, verdict: Verdict, beats: seq<Event>, last: seq<Event>)
    requires OnlyBeats(OwnSteps(beats, w)) && OwnSteps(last, w) == LastSteps(w, verdict)
    ensures OwnShape(OwnSteps([ClaimJob(w, id)] + beats + last, w), w, id, verdict)
  {
    OwnStepsConcat([ClaimJob(w, id)], beats, w);
    OwnStepsConcat([ClaimJob(w, id)] + beats, last, w);
    assert [ClaimJob(w, id)][..0] == [];
    var own := [ClaimJob(w, id)] + OwnSteps(beats, w) + LastSteps(w, verdict);
    assert own[1..|own| - |LastSteps(w, verdict)|] == OwnSteps(beats, w);
  }

  /** Where the execution is timely, which it is when everybody is punctual, its final write lands on its own running
      attempt, and nobody's invariant is broken. */
  lemma FinalWriteIsOwn(c: Config, p: Heartbeats.Timing, s: World, w: WorkerId, id: JobId, verdict: Verdict,
                        es: seq<Event>, t: World, r: Executed)
    requires Execution(c, s, w, id, verdict, es, t, r) && Inv(c, s) && es != []
    requires Heartbeats.Fits(c, p) && Heartbeats.BeatsOnSchedule(c, p, s) && Heartbeats.PunctualRun(c, p, s, es)
    ensures TimelyRun(c, s, es) && Inv(c, t)
    ensures Valid(c, s, es[..|es| - 1])
    ensures var u := Run(c, s, es[..|es| - 1]);
            && id in u.db.jobs && u.db.jobs[id].state == Running
            && u.db.jobs[id].attempts == s.db.jobs[id].attempts + 1
  {
    Heartbeats.PunctualRunsAreTimely(c, p, s, es);
    RunKeepsInv(c, s, es);
    PrefixesAreTimely(c, s, es, |es| - 1);
    RunKeepsInv(c, s, es[..|es| - 1]);
    var u := Run(c, s, es[..|es| - 1]);
    assert Holds(c, u, w);
  }

  /** What others' steps leave as it was, seen from one worker. */
  ghost predicate StillThere(w: WorkerId, s: World, t: World) {
    && (w in s.live <==> w in t.live)
    && (w in s.live ==> t.live[w] == s.live[w])
    && RowsKept(s, t)
  }

  ghost predicate RowsKept(s: World, t: World) {
    && (forall j | j in s.db.jobs :: j in t.db.jobs)
    && (forall k | k in s.db.attempts :: k in t.db.attempts)
  }

  ghost predicate StillBeating(w: WorkerId, s: World, t: World) {
    && w in s.live && w in t.live
    && t.live[w].job == s.live[w].job && t.live[w].attempt == s.live[w].attempt && t.live[w].phase == Beating
    && RowsKept(s, t)
  }

  lemma OthersKeep(c: Config, s: World, e: Event, w: WorkerId)
    requires Enabled(c, s, e) && Actor(e) != Some(w)
    ensures StillThere(w, s, Next(c, s, e))
  {
  }

  lemma BeatKeeps(c: Config, s: World, e: Event)
    requires Enabled(c, s, e) && IsBeat(e)
    ensures StillBeating(e.worker, s, Next(c, s, e))
  {
  }
}
