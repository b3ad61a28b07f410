/** Collapsing candidates that share an identity key. */
module Dedupe {
  import opened Wrappers
  import opened Candidates

  /** Keys in order of first occurrence. */
  function FirstKeys(cs: seq<Candidate>): seq<string> {
    if cs == [] then []
    else
      var front, last := FirstKeys(cs[..|cs| - 1]), cs[|cs| - 1].key;
      if last in front then front else front + [last]
  }

  /** The first candidate with this key. */
  function FirstOf(cs: seq<Candidate>, key: string): Option<Candidate> {
    if cs == [] then None
    else
      var earlier := FirstOf(cs[..|cs| - 1], key);
      if earlier.Some? then earlier else if cs[|cs| - 1].key == key then Some(cs[|cs| - 1]) else None
  }

  /** The first candidate with this key that has a link of its own. */
  function FirstLinkedOf(cs: seq<Candidate>, key: string): Option<Candidate> {
    if cs == [] then None
    else
      var earlier, last := FirstLinkedOf(cs[..|cs| - 1], key), cs[|cs| - 1];
      if earlier.Some? then earlier else if last.key == key && last.url.Some? then Some(last) else None
  }

  /** Who stands for a key: the first with a link, or failing that the first. */
  function Representative(cs: seq<Candidate>, key: string): Option<Candidate> {
    if FirstLinkedOf(cs, key).Some? then FirstLinkedOf(cs, key) else FirstOf(cs, key)
  }

  ghost predicate DistinctKeys(cs: seq<Candidate>) {
    forall i, j | 0 <= i < j < |cs| :: cs[i].key != cs[j].key
  }

  /** What deduplication is meant to produce. */
  ghost predicate IsDeduped(cs: seq<Candidate>, out: seq<Candidate>) {
    && |out| == |FirstKeys(cs)|
    && forall i | 0 <= i < |out| :: out[i].key == FirstKeys(cs)[i] && Representative(cs, out[i].key) == Some(out[i])
  }

  /** What the dictionary holds for a key. */
  ghost predicate Entry(cs: seq<Candidate>, k: string, c: Candidate) {
    && c.key == k
    && Representative(cs, k) == Some(c)
    && (c.url.None? <==> FirstLinkedOf(cs, k).None?)
  }

  /** The insertion-ordered dictionary the scan builds: `order` are its keys, `seen` its entries. */
  ghost predicate Tracks(cs: seq<Candidate>, order: seq<string>, seen: map<string, Candidate>) {
    && order == FirstKeys(cs)
    && (forall k :: k in seen <==> k in order)
    && (forall k | k in seen :: Entry(cs, k, seen[k]))
  }

  /** One more candidate, seen from one key. */
  lemma SnocOf(cs: seq<Candidate>, c: Candidate, key: string)
    ensures FirstOf(cs + [c], key) ==
            if FirstOf(cs, key).Some? then FirstOf(cs, key) else if c.key == key then Some(c) else None
    ensures FirstLinkedOf(cs + [c], key) ==
            if FirstLinkedOf(cs, key).Some? then FirstLinkedOf(cs, key)
            else if c.key == key && c.url.Some? then Some(c) else None
  {
    assert (cs + [c])[..|cs|] == cs && (cs + [c])[|cs|] == c;
  }

  lemma SnocKeys(cs: seq<Candidate>, c: Candidate)
    ensures FirstKeys(cs + [c]) == if c.key in FirstKeys(cs) then FirstKeys(cs) else FirstKeys(cs) + [c.key]
  {
    assert (cs + [c])[..|cs|] == cs && (cs + [c])[|cs|] == c;
  }

  lemma OtherEntries(cs: seq<Candidate>, c: Candidate, k: string, held: Candidate)
    requires Entry(cs, k, held) && c.key != k
    ensures Entry(cs + [c], k, held)
  {
    SnocOf(cs, c, k);
  }

  lemma NewEntry(cs: seq<Candidate>, c: Candidate)
    requires !HasKey(cs, c.key)
    ensures Entry(cs + [c], c.key, c)
  {
    SnocOf(cs, c, c.key);
    RepresentativeFacts(cs, c.key);
  }

  /** A later candidate replaces the one held only when it brings the first link. */
  lemma HeldEntry(cs: seq<Candidate>, c: Candidate, held: Candidate)
    requires Entry(cs, c.key, held)
    ensures Entry(cs + [c], c.key, if held.url.None? && c.url.Some? then c else held)
  {
    SnocOf(cs, c, c.key);
    RepresentativeFacts(cs, c.key);
  }

  lemma TrackStep(cs: seq<Candidate>, c: Candidate, order: seq<string>, seen: map<string, Candidate>)
    requires Tracks(cs, order, seen)
    ensures var isNew := c.key !in seen;
            var better := !isNew && seen[c.key].url.None? && c.url.Some?;
            Tracks(cs + [c], if isNew then order + [c.key] else order,
                   if isNew || better then seen[c.key := c] else seen)
  {
    SnocKeys(cs, c);
    FirstKeysFacts(cs);
    if c.key in seen { HeldEntry(cs, c, seen[c.key]); } else { NewEntry(cs, c); }
    forall k | k in seen && k != c.key ensures Entry(cs + [c], k, seen[k]) { OtherEntries(cs, c, k, seen[k]); }
  }

  method DedupeCandidates(cs: seq<Candidate>) returns (out: seq<Candidate>, duplicates: nat)
    ensures IsDeduped(cs, out)
    ensures |out| + duplicates == |cs|
  {
    var seen: map<string, Candidate> := map[];
    var order: seq<string> := [];
    duplicates := 0;
    var i := 0;
    while i < |cs|
      invariant 0 <= i <= |cs|
      invariant Tracks(cs[..i], order, seen)
      invariant |order| + duplicates == i
    {
      var c := cs[i];
      assert cs[..i + 1] == cs[..i] + [c];
      TrackStep(cs[..i], c, order, seen);
      if c.key !in seen {
        seen := seen[c.key := c];
        order := order + [c.key];
      } else {
        duplicates := duplicates + 1;
        if seen[c.key].url.None? && c.url.Some? { seen := seen[c.key := c]; }
      }
      i := i + 1;
    }
    assert cs[..i] == cs;
    out := ValuesOf(order, seen);
  }

  /** The dictionary's values, in insertion order. */
  function ValuesOf(order: seq<string>, seen: map<string, Candidate>): (out: seq<Candidate>)
    requires forall k | k in order :: k in seen
    ensures |out| == |order| && forall i | 0 <= i < |order| :: out[i] == seen[order[i]]
  {
    if order == [] then [] else [seen[order[0]]] + ValuesOf(order[1..], seen)
  }

  ghost predicate HasKey(cs: seq<Candidate>, key: string) {
    exists i | 0 <= i < |cs| :: cs[i].key == key
  }

  ghost predicate HasLinked(cs: seq<Candidate>, key: string) {
    exists i | 0 <= i < |cs| :: cs[i].key == key && cs[i].url.Some?
  }

  lemma HasKeySnoc(cs: seq<Candidate>, key: string)
    requires cs != []
    ensures var front, last := cs[..|cs| - 1], cs[|cs| - 1];
            && (HasKey(cs, key) <==> HasKey(front, key) || last.key == key)
            && (HasLinked(cs, key) <==> HasLinked(front, key) || (last.key == key && last.url.Some?))
  {
    var front := cs[..|cs| - 1];
    assert forall i | 0 <= i < |front| :: front[i] == cs[i];
  }

  lemma {:induction false} FirstKeysFacts(cs: seq<Candidate>)
    ensures forall i, j | 0 <= i < j < |FirstKeys(cs)| :: FirstKeys(cs)[i] != FirstKeys(cs)[j]
    ensures forall k :: k in FirstKeys(cs) <==> HasKey(cs, k)
  {
    if cs != [] {
      FirstKeysFacts(cs[..|cs| - 1]);
      forall k ensures k in FirstKeys(cs) <==> HasKey(cs, k) { HasKeySnoc(cs, k); }
    }
  }

  lemma {:induction false} RepresentativeFacts(cs: seq<Candidate>, key: string)
    ensures FirstOf(cs, key).Some? ==> FirstOf(cs, key).value in cs && FirstOf(cs, key).value.key == key
    ensures FirstLinkedOf(cs, key).Some? ==>
              var c := FirstLinkedOf(cs, key).value; c in cs && c.key == key && c.url.Some?
    ensures FirstLinkedOf(cs, key).Some? <==> HasLinked(cs, key)
    ensures FirstOf(cs, key).Some? <==> HasKey(cs, key)
  {
    if cs != [] {
      var front, last := cs[..|cs| - 1], cs[|cs| - 1];
      RepresentativeFacts(front, key);
      HasKeySnoc(cs, key);
      assert cs == front + [last];
    }
  }

  /** Deduplication as its users need it: keys distinct and exactly the input's, in order of first occurrence;
      every survivor is an input candidate, and one without a link only if no input with its key had one. */
  lemma DedupedFacts(cs: seq<Candidate>, out: seq<Candidate>)
    requires IsDeduped(cs, out)
    ensures DistinctKeys(out)
    ensures forall k :: HasKey(out, k) <==> HasKey(cs, k)
    ensures forall c | c in out :: c in cs
    ensures forall i | 0 <= i < |out| :: out[i].url.Some? <==> HasLinked(cs, out[i].key)
  {
    FirstKeysFacts(cs);
    forall k ensures HasKey(out, k) <==> HasKey(cs, k) {
      if k in FirstKeys(cs) {
        var i :| 0 <= i < |FirstKeys(cs)| && FirstKeys(cs)[i] == k;
        assert out[i].key == k;
      }
    }
    forall c | c in out ensures c in cs { RepresentativeFacts(cs, c.key); }
    forall i | 0 <= i < |out| ensures out[i].url.Some? <==> HasLinked(cs, out[i].key) {
      RepresentativeFacts(cs, out[i].key);
      if FirstLinkedOf(cs, out[i].key).None? { NoLinkNoUrl(cs, out[i].key); }
    }
  }

  lemma {:induction false} NoLinkNoUrl(cs: seq<Candidate>, key: string)
    requires FirstLinkedOf(cs, key).None? && FirstOf(cs, key).Some?
    ensures FirstOf(cs, key).value.url.None?
  {
    if FirstOf(cs[..|cs| - 1], key).Some? { NoLinkNoUrl(cs[..|cs| - 1], key); }
  }

  lemma {:induction false} DistinctUnchanged(cs: seq<Candidate>)
    requires DistinctKeys(cs)
    ensures |FirstKeys(cs)| == |cs|
    ensures forall i | 0 <= i < |cs| :: FirstKeys(cs)[i] == cs[i].key && Representative(cs, cs[i].key) == Some(cs[i])
  {
    if cs != [] {
      var front, last := cs[..|cs| - 1], cs[|cs| - 1];
      DistinctUnchanged(front);
      FirstKeysFacts(front);
      RepresentativeFacts(front, last.key);
      assert forall i | 0 <= i < |front| :: front[i] == cs[i] && front[i].key != last.key;
      forall i | 0 <= i < |cs| ensures FirstKeys(cs)[i] == cs[i].key && Representative(cs, cs[i].key) == Some(cs[i]) {
        if i < |front| { assert front[i] == cs[i]; }
      }
    }
  }

  /** The result is determined by its specification, and doing it twice changes nothing. */
  lemma DedupeIdempotent(cs: seq<Candidate>, once: seq<Candidate>, twice: seq<Candidate>)
    requires IsDeduped(cs, once) && IsDeduped(once, twice)
    ensures twice == once
  {
    DedupedFacts(cs, once);
    DistinctUnchanged(once);
  }

  lemma RepresentativesExist(cs: seq<Candidate>)
    ensures forall k | k in FirstKeys(cs) :: Representative(cs, k).Some? && Representative(cs, k).value.key == k
  {
    FirstKeysFacts(cs);
    forall k | k in FirstKeys(cs) ensures Representative(cs, k).Some? && Representative(cs, k).value.key == k {
      RepresentativeFacts(cs, k);
    }
  }

  /** The specification as a function, for the nodes that follow. */
  function Deduped(cs: seq<Candidate>): (out: seq<Candidate>)
    ensures IsDeduped(cs, out)
  {
    RepresentativesExist(cs);
    var keys := FirstKeys(cs);
    ValuesOf(keys, map k | k in keys :: Representative(cs, k).value)
  }

  /** After deduplication a title names one candidate: keys are a function of titles, so equal titles would be
      equal keys. */
  lemma TitlesDistinct(cs: seq<Candidate>, keyOf: string -> string)
    requires DistinctKeys(cs) && forall i | 0 <= i < |cs| :: cs[i].key == keyOf(cs[i].title)
    ensures forall i, j | 0 <= i < j < |cs| :: cs[i].title != cs[j].title
  {
  }

  /** Where a key first occurs. */
  ghost predicate FirstAt(cs: seq<Candidate>, p: nat) {
    p < |cs| && forall q | 0 <= q < p :: cs[q].key != cs[p].key
  }

  /** Where a key first comes with a link. */
  ghost predicate FirstLinkedAt(cs: seq<Candidate>, p: nat) {
    p < |cs| && cs[p].url.Some? && forall q | 0 <= q < p :: cs[q].key != cs[p].key || cs[q].url.None?
  }

  lemma {:induction false} FirstOfIs(cs: seq<Candidate>, key: string) returns (p: nat)
    requires FirstOf(cs, key).Some?
    ensures FirstAt(cs, p) && cs[p] == FirstOf(cs, key).value && cs[p].key == key
  {
    var front := cs[..|cs| - 1];
    if FirstOf(front, key).Some? {
      p := FirstOfIs(front, key);
    } else {
      p := |cs| - 1;
      RepresentativeFacts(front, key);
      assert forall q | 0 <= q < p :: cs[q] == front[q];
    }
  }

  lemma {:induction false} FirstLinkedIs(cs: seq<Candidate>, key: string) returns (p: nat)
    requires FirstLinkedOf(cs, key).Some?
    ensures FirstLinkedAt(cs, p) && cs[p] == FirstLinkedOf(cs, key).value && cs[p].key == key
  {
    var front := cs[..|cs| - 1];
    if FirstLinkedOf(front, key).Some? {
      p := FirstLinkedIs(front, key);
    } else {
      p := |cs| - 1;
      RepresentativeFacts(front, key);
      assert forall q | 0 <= q < p :: cs[q] == front[q];
    }
  }

  /** Who survives: for each key its first candidate with a link, or its first one when none has a link. */
  lemma SurvivorIs(cs: seq<Candidate>, out: seq<Candidate>, i: nat) returns (p: nat)
    requires IsDeduped(cs, out) && i < |out|
    ensures p < |cs| && out[i] == cs[p]
    ensures FirstLinkedAt(cs, p) || (FirstAt(cs, p) && !HasLinked(cs, cs[p].key))
  {
    RepresentativeFacts(cs, out[i].key);
    if FirstLinkedOf(cs, out[i].key).Some? {
      p := FirstLinkedIs(cs, out[i].key);
    } else {
      p := FirstOfIs(cs, out[i].key);
    }
  }

  /** Survivors stand in the order in which their keys first occur. */
  lemma {:induction false} FirstKeysInOrder(cs: seq<Candidate>, i: nat, j: nat, q: nat) returns (p: nat)
    requires i < j < |FirstKeys(cs)| && q < |cs| && cs[q].key == FirstKeys(cs)[j]
    ensures p < q && cs[p].key == FirstKeys(cs)[i]
  {
    var front, last := cs[..|cs| - 1], cs[|cs| - 1];
    FirstKeysFacts(front);
    if j < |FirstKeys(front)| && q < |front| {
      p := FirstKeysInOrder(front, i, j, q);
    } else {
      assert FirstKeys(front)[i] in FirstKeys(front);
      var at :| 0 <= at < |front| && front[at].key == FirstKeys(front)[i];
      p := at;
      assert forall k | 0 <= k < |front| :: HasKey(front, cs[k].key);
      assert q == |front|;
    }
  }
}
