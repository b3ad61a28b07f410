/** Per-provider monthly budgets: a counter reserved in one atomic upsert before each external call. */
module Budget {
  import opened Retries

  /** (provider, calendar month) */
  type Key = (string, string)

  function Used(used: map<Key, nat>, key: Key): nat {
    if key in used then used[key] else 0
  }

  /** The upsert's WHERE guards only the update branch; the limit check in front of it covers the insert. */
  predicate Grants(used: map<Key, nat>, key: Key, limit: int) {
    limit > 0 && (key !in used || used[key] < limit)
  }

  class UsageTable {
    var used: map<Key, nat>

    constructor ()
      ensures used == map[]
    {
      used := map[];
    }

    method ReserveCall(key: Key, limit: int) returns (granted: bool)
      modifies this
      ensures granted == Grants(old(used), key, limit)
      ensures used == if granted then old(used)[key := Used(old(used), key) + 1] else old(used)
    {
      if limit <= 0 { return false; }
      if key !in used {
        used := used[key := 1];
        granted := true;
      } else if used[key] < limit {
        used := used[key := used[key] + 1];
        granted := true;
      } else {
        granted := false;
      }
    }
  }

  type Caller = nat

  /** Interleaved callers: each reserves, calls the vendor only on its own grant, and may die in between. */
  datatype Event =
    | Reserve(caller: Caller, key: Key, limit: int)
    | Call(caller: Caller)
    | Die(caller: Caller)

  /** `holding`: the callers standing between a grant and the call it is for. */
  datatype State = State(used: map<Key, nat>, holding: map<Caller, Key>)

  ghost predicate Enabled(s: State, e: Event) {
    match e
    case Reserve(who, _, _) => who !in s.holding
    case Call(who) => who in s.holding
    case Die(who) => who in s.holding
  }

  function Next(s: State, e: Event): State {
    match e
    case Reserve(who, key, limit) =>
      if Grants(s.used, key, limit) then State(s.used[key := Used(s.used, key) + 1], s.holding[who := key]) else s
    case Call(who) => s.(holding := s.holding - {who})
    case Die(who) => s.(holding := s.holding - {who})
  }

  ghost predicate Valid(s: State, es: seq<Event>)
    decreases |es|
  {
    es == [] || (Enabled(s, es[0]) && Valid(Next(s, es[0]), es[1..]))
  }

  function Run(s: State, es: seq<Event>): State
    decreases |es|
  {
    if es == [] then s else Run(Next(s, es[0]), es[1..])
  }

  function RequestsFor(es: seq<Event>, key: Key): nat {
    if es == [] then 0 else (if es[0].Reserve? && es[0].key == key then 1 else 0) + RequestsFor(es[1..], key)
  }

  function GrantsFor(s: State, es: seq<Event>, key: Key): nat
    decreases |es|
  {
    if es == [] then 0
    else (if es[0].Reserve? && es[0].key == key && Grants(s.used, key, es[0].limit) then 1 else 0)
         + GrantsFor(Next(s, es[0]), es[1..], key)
  }

  function CallsFor(s: State, es: seq<Event>, key: Key): nat
    decreases |es|
  {
    if es == [] then 0
    else (if es[0].Call? && es[0].caller in s.holding && s.holding[es[0].caller] == key then 1 else 0)
         + CallsFor(Next(s, es[0]), es[1..], key)
  }

  function Holders(s: State, key: Key): set<Caller> {
    set who | who in s.holding && s.holding[who] == key
  }

  lemma HoldersStep(s: State, e: Event, key: Key)
    requires Enabled(s, e)
    ensures var spent := e.Call? && s.holding[e.caller] == key;
            var won := e.Reserve? && e.key == key && Grants(s.used, key, e.limit);
            |Holders(Next(s, e), key)| + (if spent then 1 else 0) <= |Holders(s, key)| + (if won then 1 else 0)
  {
    var before, after := Holders(s, key), Holders(Next(s, e), key);
    if e.Reserve? && Grants(s.used, e.key, e.limit) {
      assert after == if e.key == key then before + {e.caller} else before;
    } else if e.Reserve? {
      assert after == before;
    } else {
      assert after == before - {e.caller};
    }
  }

  /** The counter is the number of grants, every call spends one of its caller's own grants, and the counter
      never goes back. */
  lemma {:induction false} RunCounts(s: State, es: seq<Event>, key: Key)
    requires Valid(s, es)
    ensures Used(Run(s, es).used, key) == Used(s.used, key) + GrantsFor(s, es, key)
    ensures CallsFor(s, es, key) <= |Holders(s, key)| + GrantsFor(s, es, key)
    decreases |es|
  {
    if es != [] {
      HoldersStep(s, es[0], key);
      RunCounts(Next(s, es[0]), es[1..], key);
    }
  }

  ghost predicate LimitsAtMost(es: seq<Event>, key: Key, cap: nat) {
    forall i | 0 <= i < |es| && es[i].Reserve? && es[i].key == key :: es[i].limit <= cap
  }

  lemma {:induction false} UsedAtMost(s: State, es: seq<Event>, key: Key, cap: nat)
    requires LimitsAtMost(es, key, cap) && Used(s.used, key) <= cap
    ensures Used(Run(s, es).used, key) <= cap
    decreases |es|
  {
    if es != [] {
      assert es[0].Reserve? && es[0].key == key ==> es[0].limit <= cap;
      UsedAtMost(Next(s, es[0]), es[1..], key, cap);
    }
  }

  /** For any interleaving of reader and search callers and any deaths, vendor calls in a month never exceed
      the grants recorded for it, which never exceed the largest limit anyone presented. */
  lemma CallsWithinBudget(es: seq<Event>, key: Key, cap: nat)
    requires Valid(State(map[], map[]), es) && LimitsAtMost(es, key, cap)
    ensures var s := State(map[], map[]);
            CallsFor(s, es, key) <= Used(Run(s, es).used, key) == GrantsFor(s, es, key) <= cap
  {
    var s := State(map[], map[]);
    RunCounts(s, es, key);
    UsedAtMost(s, es, key, cap);
    assert Holders(s, key) == {};
  }

  ghost predicate LimitIs(es: seq<Event>, key: Key, limit: int) {
    forall i | 0 <= i < |es| && es[i].Reserve? && es[i].key == key :: es[i].limit == limit
  }

  lemma {:induction false} GrantsExactlyFrom(s: State, es: seq<Event>, key: Key, limit: int)
    requires LimitIs(es, key, limit) && Used(s.used, key) <= Max(0, limit)
    ensures GrantsFor(s, es, key) == Min(RequestsFor(es, key), Max(0, limit) - Used(s.used, key))
    decreases |es|
  {
    if es != [] {
      assert es[0].Reserve? && es[0].key == key ==> es[0].limit == limit;
      GrantsExactlyFrom(Next(s, es[0]), es[1..], key, limit);
    }
  }

  /** With one fixed limit the budget is also never under-spent: requests are granted until the limit, then
      refused; a zero or negative limit grants nothing at all. */
  lemma GrantsExactly(es: seq<Event>, key: Key, limit: int)
    requires LimitIs(es, key, limit)
    ensures GrantsFor(State(map[], map[]), es, key) == Min(RequestsFor(es, key), Max(0, limit))
  {
    GrantsExactlyFrom(State(map[], map[]), es, key, limit);
  }
}
