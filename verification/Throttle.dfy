/** Per-host pacing: one lock and one last-exit stamp per host, shared by every coroutine. */
module Throttle {
  import opened Wrappers

  /** Seconds on the monotonic clock. */
  type Moment = real

  /** The host's entry in the registry: its lock and the stamp its last section left. */
  class HostSlot {
    var lockHeld: bool
    var last: Moment

    constructor ()
      ensures !lockHeld && last == 0.0
    {
      lockHeld := false;
      last := 0.0;
    }

    /** Take the free lock and say how long to wait before the section may start. */
    method TakeTurn(now: Moment, interval: Moment) returns (wait: Moment)
      requires !lockHeld
      modifies this
      ensures lockHeld && last == old(last)
      ensures wait >= 0.0 && now + wait >= last + interval
      ensures wait == 0.0 || now + wait == last + interval
    {
      lockHeld := true;
      wait := interval - (now - last);
      if wait <= 0.0 { wait := 0.0; }
    }

    /** Leave the section, however its body ended: stamp, then free the lock. */
    method LeaveTurn(now: Moment)
      requires lockHeld
      modifies this
      ensures !lockHeld && last == now
    {
      last := now;
      lockHeld := false;
    }

    /** Cancelled while sleeping: the lock is freed and nothing is stamped. */
    method AbandonTurn()
      requires lockHeld
      modifies this
      ensures !lockHeld && last == old(last)
    {
      lockHeld := false;
    }
  }

  class Registry {
    var hosts: map<string, HostSlot>

    constructor ()
      ensures hosts == map[]
    {
      hosts := map[];
    }

    /** One host, one slot object, for the life of the process. */
    method Slot(host: string) returns (slot: HostSlot)
      modifies this
      ensures host in hosts && hosts[host] == slot
      ensures host in old(hosts) ==> hosts == old(hosts)
      ensures host !in old(hosts) ==>
                fresh(slot) && !slot.lockHeld && slot.last == 0.0 && hosts == old(hosts)[host := slot]
    {
      if host !in hosts {
        slot := new HostSlot();
        hosts := hosts[host := slot];
      } else {
        slot := hosts[host];
      }
    }

    ghost predicate Separate()
      reads this
    {
      forall a, b | a in hosts && b in hosts && hosts[a] == hosts[b] :: a == b
    }

    /** The stamp a host's next turn counts from. */
    ghost function LastExit(host: string): Moment
      reads this, hosts.Values
    {
      if host in hosts then hosts[host].last else 0.0
    }

    /** One paced section of a host whose lock is free: wait out the interval unless cancelled meanwhile, run the body,
        and stamp the exit however the body ended. `entered` is when the body started, if it did. */
    method Pace(host: string, interval: Moment, now: Moment, cancelledAsleep: bool, bodyTook: Moment)
      returns (entered: Option<Moment>)
      requires Separate() && (host in hosts ==> !hosts[host].lockHeld)
      modifies this, hosts.Values
      ensures Separate()
      ensures !Paced(host, interval) ==> entered == Some(now) && hosts == old(hosts)
      ensures !Paced(host, interval) ==> forall h | h in hosts :: LastExit(h) == old(LastExit(h))
      ensures Paced(host, interval) ==> host in hosts && !hosts[host].lockHeld
      ensures Paced(host, interval) ==>
                var from := old(LastExit(host)) + interval;
                if cancelledAsleep && now < from then entered.None? && LastExit(host) == old(LastExit(host))
                else entered == Some(if now < from then from else now) && LastExit(host) == entered.value + bodyTook
      ensures forall h | h in old(hosts) && h != host :: h in hosts && hosts[h] == old(hosts[h])
                && hosts[h].lockHeld == old(hosts[h].lockHeld) && hosts[h].last == old(hosts[h].last)
    {
      if interval <= 0.0 || host == "" { return Some(now); }
      var slot := Slot(host);
      var wait := slot.TakeTurn(now, interval);
      if cancelledAsleep && wait > 0.0 {
        slot.AbandonTurn();
        return None;
      }
      slot.LeaveTurn(now + wait + bodyTook);
      entered := Some(now + wait);
    }
  }

  // ---- Every interleaving of coroutines ----

  type CoroId = nat

  datatype Coro =
    | Queued(host: string, interval: Moment)
    | Sleeping(host: string, interval: Moment, wakeAt: Moment)
    | Inside(host: string, interval: Moment, enteredAt: Moment)

  /** One completed critical section. */
  datatype Section = Section(enter: Moment, exit: Moment, interval: Moment)

  datatype Slot = Slot(holder: Option<CoroId>, last: Moment)

  datatype Pacer = Pacer(now: Moment, slots: map<string, Slot>, coros: map<CoroId, Coro>,
                         history: map<string, seq<Section>>)

  datatype Event =
    | Tick(elapsed: Moment)
    | Arrive(coro: CoroId, host: string, interval: Moment)
    | Acquire(coro: CoroId)
    | Enter(coro: CoroId)
    | Leave(coro: CoroId)
    | Cancel(coro: CoroId)

  /** A non-positive interval or an empty host never reaches the lock. */
  predicate Paced(host: string, interval: Moment) {
    interval > 0.0 && host != ""
  }

  ghost predicate Enabled(s: Pacer, e: Event) {
    match e
    case Tick(dt) => dt >= 0.0
    case Arrive(k, host, interval) => k !in s.coros && Paced(host, interval)
    case Acquire(k) =>
      k in s.coros && s.coros[k].Queued? && s.coros[k].host in s.slots && s.slots[s.coros[k].host].holder.None?
    case Enter(k) => k in s.coros && s.coros[k].Sleeping? && s.coros[k].wakeAt <= s.now
    case Leave(k) =>
      && k in s.coros && s.coros[k].Inside? && s.coros[k].host in s.slots && s.coros[k].host in s.history
    case Cancel(k) =>
      k in s.coros && !s.coros[k].Inside? && s.coros[k].host in s.slots
  }

  function WakeAt(now: Moment, last: Moment, interval: Moment): Moment {
    var wait := interval - (now - last);
    if wait > 0.0 then now + wait else now
  }

  ghost function Next(s: Pacer, e: Event): Pacer
    requires Enabled(s, e)
  {
    match e
    case Tick(dt) => s.(now := s.now + dt)
    case Arrive(k, host, interval) =>
      var known := host in s.slots;
      s.(slots := if known then s.slots else s.slots[host := Slot(None, 0.0)],
         history := if host in s.history then s.history else s.history[host := []],
         coros := s.coros[k := Queued(host, interval)])
    case Acquire(k) =>
      var me := s.coros[k];
      s.(slots := s.slots[me.host := s.slots[me.host].(holder := Some(k))],
         coros := s.coros[k := Sleeping(me.host, me.interval, WakeAt(s.now, s.slots[me.host].last, me.interval))])
    case Enter(k) =>
      var me := s.coros[k];
      s.(coros := s.coros[k := Inside(me.host, me.interval, s.now)])
    case Leave(k) =>
      var me := s.coros[k];
      s.(slots := s.slots[me.host := Slot(None, s.now)],
         history := s.history[me.host := s.history[me.host] + [Section(me.enteredAt, s.now, me.interval)]],
         coros := s.coros - {k})
    case Cancel(k) =>
      var me := s.coros[k];
      s.(slots := if me.Sleeping? then s.slots[me.host := s.slots[me.host].(holder := None)] else s.slots,
         coros := s.coros - {k})
  }

  ghost predicate Valid(s: Pacer, es: seq<Event>)
    decreases |es|
  {
    es == [] || (Enabled(s, es[0]) && Valid(Next(s, es[0]), es[1..]))
  }

  ghost function Run(s: Pacer, es: seq<Event>): Pacer
    requires Valid(s, es)
    decreases |es|
  {
    if es == [] then s else Run(Next(s, es[0]), es[1..])
  }

  /** Sections follow one another, each starting a full interval (its own) after the one before ended. */
  ghost predicate Apart(h: seq<Section>) {
    && (forall i | 0 <= i < |h| :: h[i].enter <= h[i].exit)
    && (forall i | 0 <= i < |h| - 1 :: h[i].exit + h[i + 1].interval <= h[i + 1].enter)
  }

  /** Only the lock's holder is past the queue. */
  ghost predicate LockInv(holder: Option<CoroId>, coros: map<CoroId, Coro>, host: string) {
    && (forall k | k in coros && coros[k].host == host && !coros[k].Queued? :: holder == Some(k))
    && (holder.Some? ==>
          holder.value in coros && coros[holder.value].host == host && !coros[holder.value].Queued?)
  }

  /** The holder sleeps until, or entered after, its interval from the host's last exit. */
  predicate HolderSpaced(me: Coro, h: seq<Section>, now: Moment) {
    match me
    case Queued(_, _) => true
    case Sleeping(_, interval, wakeAt) => h != [] ==> wakeAt >= h[|h| - 1].exit + interval
    case Inside(_, interval, enteredAt) => enteredAt <= now && (h != [] ==> enteredAt >= h[|h| - 1].exit + interval)
  }

  ghost predicate HostInv(s: Pacer, host: string)
    requires host in s.slots && host in s.history
  {
    var slot, h := s.slots[host], s.history[host];
    && Apart(h)
    && (h != [] ==> slot.last == h[|h| - 1].exit)
    && LockInv(slot.holder, s.coros, host)
    && (slot.holder.Some? ==> HolderSpaced(s.coros[slot.holder.value], h, s.now))
  }

  ghost predicate Inv(s: Pacer) {
    && s.slots.Keys == s.history.Keys
    && (forall k | k in s.coros :: s.coros[k].host in s.slots && s.coros[k].interval > 0.0)
    && (forall host | host in s.slots :: HostInv(s, host))
  }

  lemma ApartSnoc(h: seq<Section>, next: Section)
    requires Apart(h) && next.enter <= next.exit
    requires h != [] ==> h[|h| - 1].exit + next.interval <= next.enter
    ensures Apart(h + [next])
  {
    var g := h + [next];
    forall i | 0 <= i < |g| - 1 ensures g[i].exit + g[i + 1].interval <= g[i + 1].enter {
      if i == |h| - 1 { assert g[i + 1] == next; } else { assert g[i + 1] == h[i + 1]; }
    }
  }

  /** The host an event's coroutine is pacing. */
  function HostOf(s: Pacer, e: Event): string {
    match e
    case Tick(_) => ""
    case Arrive(_, host, _) => host
    case Acquire(k) => if k in s.coros then s.coros[k].host else ""
    case Enter(k) => if k in s.coros then s.coros[k].host else ""
    case Leave(k) => if k in s.coros then s.coros[k].host else ""
    case Cancel(k) => if k in s.coros then s.coros[k].host else ""
  }

  lemma StepKeepsOwnHost(s: Pacer, e: Event)
    requires Inv(s) && Enabled(s, e) && !e.Tick?
    ensures var host := HostOf(s, e); var t := Next(s, e);
            host in t.slots && host in t.history && HostInv(t, host)
  {
    var host, t := HostOf(s, e), Next(s, e);
    if host in s.slots { assert HostInv(s, host); }
    if e.Leave? {
      assert s.slots[host].holder == Some(e.coro);
      ApartSnoc(s.history[host], Section(s.coros[e.coro].enteredAt, s.now, s.coros[e.coro].interval));
      assert Apart(t.history[host]);
    }
  }

  lemma StepKeepsOtherHost(s: Pacer, e: Event, host: string)
    requires Inv(s) && Enabled(s, e)
    requires host in s.slots && (e.Tick? || host != HostOf(s, e))
    ensures var t := Next(s, e); host in t.slots && host in t.history && HostInv(t, host)
  {
    assert HostInv(s, host);
    var t := Next(s, e);
    assert t.slots[host] == s.slots[host] && t.history[host] == s.history[host];
    OthersCorosUntouched(s, e, host);
    assert LockInv(t.slots[host].holder, t.coros, host);
  }

  lemma OthersCorosUntouched(s: Pacer, e: Event, host: string)
    requires Inv(s) && Enabled(s, e)
    requires e.Tick? || host != HostOf(s, e)
    ensures var t := Next(s, e);
            forall k :: (k in t.coros && t.coros[k].host == host) <==> (k in s.coros && s.coros[k].host == host)
    ensures var t := Next(s, e);
            forall k | k in s.coros && s.coros[k].host == host :: k in t.coros && t.coros[k] == s.coros[k]
  {
  }

  lemma StepKeepsHost(s: Pacer, e: Event, host: string)
    requires Inv(s) && Enabled(s, e)
    requires host in Next(s, e).slots
    ensures host in Next(s, e).history && HostInv(Next(s, e), host)
  {
    if !e.Tick? && host == HostOf(s, e) { StepKeepsOwnHost(s, e); } else { StepKeepsOtherHost(s, e, host); }
  }

  lemma {:induction false} RunKeepsInv(s: Pacer, es: seq<Event>)
    requires Inv(s) && Valid(s, es)
    ensures Inv(Run(s, es))
    decreases |es|
  {
    if es != [] {
      var t := Next(s, es[0]);
      forall host | host in t.slots ensures HostInv(t, host) { StepKeepsHost(s, es[0], host); }
      RunKeepsInv(t, es[1..]);
    }
  }

  function Start(now: Moment): Pacer {
    Pacer(now, map[], map[], map[])
  }

  /** At most one coroutine is in a host's section, whatever the interleaving, failures and cancellations. */
  lemma SectionsExclusive(now: Moment, es: seq<Event>, a: CoroId, b: CoroId)
    requires Valid(Start(now), es)
    ensures var s := Run(Start(now), es);
            && a in s.coros && b in s.coros && s.coros[a].Inside? && s.coros[b].Inside?
            && s.coros[a].host == s.coros[b].host
            ==> a == b
  {
    RunKeepsInv(Start(now), es);
    var s := Run(Start(now), es);
    if a in s.coros && b in s.coros && s.coros[a].host == s.coros[b].host {
      assert HostInv(s, s.coros[a].host);
    }
  }

  lemma {:induction false} SpanOf(h: seq<Section>, interval: Moment, i: nat, j: nat)
    requires Apart(h) && i <= j < |h|
    requires forall k | 0 <= k < |h| :: h[k].interval == interval
    ensures h[j].enter >= h[i].enter + (j - i) as real * interval
    ensures i < j ==> h[j].enter >= h[i].exit + interval + (j - i - 1) as real * interval
  {
    if i < j {
      SpanOf(h, interval, i, j - 1);
      assert h[j - 1].exit + h[j].interval <= h[j].enter;
      assert (j - i) as real == (j - 1 - i) as real + 1.0;
      assert (j - i) as real * interval == (j - 1 - i) as real * interval + interval;
      if i < j - 1 {
        assert (j - i - 1) as real * interval == (j - 1 - i - 1) as real * interval + interval by {
          assert (j - i - 1) as real == (j - 1 - i - 1) as real + 1.0;
        }
      }
    }
  }

  /** Sections of one host never overlap and are spaced end to start by the later caller's interval, the one
      now in progress included. */
  lemma SectionsSpaced(now: Moment, es: seq<Event>, host: string)
    requires Valid(Start(now), es)
    ensures var s := Run(Start(now), es);
            host in s.history ==>
              && Apart(s.history[host])
              && (s.history[host] != [] ==>
                    forall k | k in s.coros && s.coros[k].Inside? && s.coros[k].host == host ::
                      s.coros[k].enteredAt >= s.history[host][|s.history[host]| - 1].exit + s.coros[k].interval)
  {
    RunKeepsInv(Start(now), es);
    var s := Run(Start(now), es);
    if host in s.history { assert HostInv(s, host); }
  }

  /** k sections at one interval span at least k - 1 intervals. */
  lemma RateBound(now: Moment, es: seq<Event>, host: string, interval: Moment)
    requires Valid(Start(now), es)
    requires var s := Run(Start(now), es);
             host in s.history && s.history[host] != [] && forall x | x in s.history[host] :: x.interval == interval
    ensures var h := Run(Start(now), es).history[host];
            h[|h| - 1].exit >= h[0].enter + (|h| - 1) as real * interval
  {
    SectionsSpaced(now, es, host);
    var h := Run(Start(now), es).history[host];
    SpanOf(h, interval, 0, |h| - 1);
  }

  /** A coroutine's event concerns its own host and no other. */
  lemma OtherHostsUntouched(s: Pacer, e: Event, host: string)
    requires Inv(s) && Enabled(s, e)
    requires host in s.slots && (e.Tick? || host != HostOf(s, e))
    ensures host in Next(s, e).slots && Next(s, e).slots[host] == s.slots[host]
    ensures host in Next(s, e).history && Next(s, e).history[host] == s.history[host]
  {
  }

  /** The wait is the least there can be: a coroutine that takes its host's lock may enter as soon as both now and one
      interval past the host's last exit have come, and a host nobody has left since the start counts from zero. */
  lemma WaitIsLeast(now: Moment, es: seq<Event>, k: CoroId, at: Moment)
    requires Valid(Start(now), es) && Enabled(Run(Start(now), es), Acquire(k))
    requires at >= Run(Start(now), es).now
    ensures var s := Run(Start(now), es);
            var me, t := s.coros[k], Next(s, Acquire(k));
            && me.host in s.history
            && (Enabled(t.(now := at), Enter(k)) <==>
                  at >= me.interval + (if s.history[me.host] == [] then 0.0
                                       else s.history[me.host][|s.history[me.host]| - 1].exit))
  {
    RunKeepsStamps(Start(now), es);
    assert StampedHost(Run(Start(now), es), Run(Start(now), es).coros[k].host);
  }

  /** A host's stamp is its last exit, and zero before any. */
  ghost predicate StampedHost(s: Pacer, host: string)
    requires host in s.slots && host in s.history
  {
    s.slots[host].last == if s.history[host] == [] then 0.0 else s.history[host][|s.history[host]| - 1].exit
  }

  ghost predicate Stamped(s: Pacer) {
    && s.slots.Keys == s.history.Keys
    && (forall k | k in s.coros :: s.coros[k].host in s.slots)
    && forall host | host in s.slots :: StampedHost(s, host)
  }

  lemma {:induction false} RunKeepsStamps(s: Pacer, es: seq<Event>)
    requires Stamped(s) && Valid(s, es)
    ensures Stamped(Run(s, es))
    decreases |es|
  {
    if es != [] {
      var t := Next(s, es[0]);
      forall host | host in t.slots ensures StampedHost(t, host) { StepKeepsStamp(s, es[0], host); }
      RunKeepsStamps(t, es[1..]);
    }
  }

  lemma StepKeepsStamp(s: Pacer, e: Event, host: string)
    requires Stamped(s) && Enabled(s, e) && host in Next(s, e).slots
    ensures Next(s, e).slots.Keys == Next(s, e).history.Keys && StampedHost(Next(s, e), host)
  {
    if host in s.slots { assert StampedHost(s, host); }
  }
}
