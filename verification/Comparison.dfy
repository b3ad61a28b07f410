/** Agreement between what a candidate reports and what its official page says. */
module Comparison {
  import opened Wrappers
  import opened Candidates
  import opened FactMatching
  import opened Urls

  type Comparator = (string, string) -> Option<bool>

  // ---- Distinct values, in order ----

  /** First occurrences of the non-empty mentions. */
  function Values(mentions: seq<string>): seq<string> {
    if mentions == [] then []
    else
      var front, last := Values(mentions[..|mentions| - 1]), mentions[|mentions| - 1];
      if last != "" && last !in front then front + [last] else front
  }

  ghost predicate Distinct(s: seq<string>) {
    forall i, j | 0 <= i < j < |s| :: s[i] != s[j]
  }

  lemma {:induction false} ValuesFacts(mentions: seq<string>)
    ensures Distinct(Values(mentions))
    ensures forall s :: s in Values(mentions) <==> s in mentions && s != ""
  {
    if mentions != [] {
      var front, last := mentions[..|mentions| - 1], mentions[|mentions| - 1];
      ValuesFacts(front);
      assert mentions == front + [last];
    }
  }

  method CollectValues(mentions: seq<string>) returns (seen: seq<string>)
    ensures seen == Values(mentions)
  {
    seen := [];
    for i := 0 to |mentions|
      invariant seen == Values(mentions[..i])
    {
      assert mentions[..i + 1][..i] == mentions[..i];
      var s := mentions[i];
      if s != "" && s !in seen { seen := seen + [s]; }
    }
    assert mentions[..|mentions|] == mentions;
  }

  // ---- Two sets of values ----

  /** The first official value the comparator matches with `r`. */
  function FirstIn(r: string, official: seq<string>, cmp: Comparator): Option<string> {
    if official == [] then None
    else if cmp(r, official[0]) == Some(true) then Some(official[0]) else FirstIn(r, official[1..], cmp)
  }

  /** The first match, trying each reported value against every official one before the next. */
  function FirstMatch(reported: seq<string>, official: seq<string>, cmp: Comparator): Option<string> {
    if reported == [] then None
    else
      var here := FirstIn(reported[0], official, cmp);
      if here.Some? then here else FirstMatch(reported[1..], official, cmp)
  }

  function Compared(reported: seq<string>, official: seq<string>, cmp: Comparator): (Option<bool>, Option<string>) {
    if reported == [] || official == [] then (None, None)
    else
      var hit := FirstMatch(reported, official, cmp);
      if hit.Some? then (Some(true), hit)
      else if |reported| == 1 && |official| == 1 then (cmp(reported[0], official[0]), Some(official[0]))
      else (None, None)
  }

  lemma {:induction false} FirstInSkip(r: string, official: seq<string>, cmp: Comparator, j: nat)
    requires j <= |official| && forall k | 0 <= k < j :: cmp(r, official[k]) != Some(true)
    ensures FirstIn(r, official, cmp) == FirstIn(r, official[j..], cmp)
  {
    if j > 0 {
      FirstInSkip(r, official[1..], cmp, j - 1);
      assert official[1..][j - 1..] == official[j..];
    } else {
      assert official[0..] == official;
    }
  }

  method CompareSets(reported: seq<string>, official: seq<string>, cmp: Comparator)
    returns (agrees: Option<bool>, value: Option<string>)
    ensures (agrees, value) == Compared(reported, official, cmp)
  {
    if reported == [] || official == [] { return None, None; }
    var i := 0;
    while i < |reported|
      invariant 0 <= i <= |reported|
      invariant FirstMatch(reported, official, cmp) == FirstMatch(reported[i..], official, cmp)
    {
      var j := 0;
      while j < |official|
        invariant 0 <= j <= |official|
        invariant forall k | 0 <= k < j :: cmp(reported[i], official[k]) != Some(true)
      {
        if cmp(reported[i], official[j]) == Some(true) {
          FirstInSkip(reported[i], official, cmp, j);
          return Some(true), Some(official[j]);
        }
        j := j + 1;
      }
      FirstInSkip(reported[i], official, cmp, |official|);
      assert reported[i..][1..] == reported[i + 1..];
      i := i + 1;
    }
    if |reported| == 1 && |official| == 1 { return cmp(reported[0], official[0]), Some(official[0]); }
    return None, None;
  }

  ghost predicate SomePairMatches(reported: seq<string>, official: seq<string>, cmp: Comparator) {
    exists r, o | r in reported && o in official :: cmp(r, o) == Some(true)
  }

  lemma {:induction false} FirstInIff(r: string, official: seq<string>, cmp: Comparator)
    ensures FirstIn(r, official, cmp).Some? <==> exists o | o in official :: cmp(r, o) == Some(true)
    ensures FirstIn(r, official, cmp).Some? ==>
              FirstIn(r, official, cmp).value in official && cmp(r, FirstIn(r, official, cmp).value) == Some(true)
  {
    if official != [] {
      FirstInIff(r, official[1..], cmp);
      assert official == [official[0]] + official[1..];
    }
  }

  lemma {:induction false} FirstMatchIff(reported: seq<string>, official: seq<string>, cmp: Comparator)
    ensures FirstMatch(reported, official, cmp).Some? <==> SomePairMatches(reported, official, cmp)
    ensures FirstMatch(reported, official, cmp).Some? ==>
              var v := FirstMatch(reported, official, cmp).value;
              v in official && exists r | r in reported :: cmp(r, v) == Some(true)
  {
    if reported != [] {
      FirstInIff(reported[0], official, cmp);
      FirstMatchIff(reported[1..], official, cmp);
      assert reported == [reported[0]] + reported[1..];
    }
  }

  /** Agreement is one pair that matches, anywhere; contradiction needs both sides to offer a single value. */
  lemma VerdictIff(reported: seq<string>, official: seq<string>, cmp: Comparator)
    ensures Compared(reported, official, cmp).0 == Some(true) <==> SomePairMatches(reported, official, cmp)
    ensures Compared(reported, official, cmp).0 == Some(false) <==>
              |reported| == 1 && |official| == 1 && cmp(reported[0], official[0]) == Some(false)
    ensures Compared(reported, official, cmp).0 == Some(true) ==>
              Compared(reported, official, cmp).1.Some? && Compared(reported, official, cmp).1.value in official
  {
    FirstMatchIff(reported, official, cmp);
  }

  /** The value returned is the first match in reported-major order. */
  lemma {:induction false} FirstMatchIsFirst(reported: seq<string>, official: seq<string>, cmp: Comparator)
    returns (i: nat, j: nat)
    requires FirstMatch(reported, official, cmp).Some?
    ensures i < |reported| && j < |official|
    ensures FirstMatch(reported, official, cmp) == Some(official[j]) && cmp(reported[i], official[j]) == Some(true)
    ensures forall k, l | 0 <= k < i && 0 <= l < |official| :: cmp(reported[k], official[l]) != Some(true)
    ensures forall l | 0 <= l < j :: cmp(reported[i], official[l]) != Some(true)
  {
    if FirstIn(reported[0], official, cmp).Some? {
      i := 0;
      j := FirstInPosition(reported[0], official, cmp);
    } else {
      FirstInIff(reported[0], official, cmp);
      i, j := FirstMatchIsFirst(reported[1..], official, cmp);
      i := i + 1;
    }
  }

  lemma {:induction false} FirstInPosition(r: string, official: seq<string>, cmp: Comparator) returns (j: nat)
    requires FirstIn(r, official, cmp).Some?
    ensures j < |official| && FirstIn(r, official, cmp) == Some(official[j]) && cmp(r, official[j]) == Some(true)
    ensures forall l | 0 <= l < j :: cmp(r, official[l]) != Some(true)
  {
    if cmp(r, official[0]) == Some(true) { j := 0; }
    else {
      j := FirstInPosition(r, official[1..], cmp);
      j := j + 1;
    }
  }

  /** The verdict does not depend on the order in which either side lists its values. */
  lemma VerdictIgnoresOrder(a: seq<string>, a': seq<string>, b: seq<string>, b': seq<string>, cmp: Comparator)
    requires multiset(a) == multiset(a') && multiset(b) == multiset(b')
    ensures Compared(a, b, cmp).0 == Compared(a', b', cmp).0
  {
    VerdictIff(a, b, cmp);
    VerdictIff(a', b', cmp);
    SameMembers(a, a');
    SameMembers(b, b');
    if |a| == 1 { assert a[0] in a'; }
    if |b| == 1 { assert b[0] in b'; }
    if |a'| == 1 && |b'| == 1 { assert a[0] in a' && b[0] in b'; }
  }

  lemma SameMembers(a: seq<string>, b: seq<string>)
    requires multiset(a) == multiset(b)
    ensures |a| == |b| && forall x :: x in a <==> x in b
  {
    assert |multiset(a)| == |a| && |multiset(b)| == |b|;
    forall x ensures x in a <==> x in b {
      assert x in multiset(a) <==> x in multiset(b);
    }
  }

  /** More mentions can turn a contradiction into doubt or agreement; they never undo an agreement, and never
      create a contradiction where both sides already had something to say. */
  lemma MoreMentions(a: seq<string>, moreA: seq<string>, b: seq<string>, moreB: seq<string>, cmp: Comparator)
    ensures Compared(a, b, cmp).0 == Some(true) ==> Compared(a + moreA, b + moreB, cmp).0 == Some(true)
    ensures a != [] && b != [] && Compared(a + moreA, b + moreB, cmp).0 == Some(false) ==>
            Compared(a, b, cmp).0 == Some(false)
  {
    VerdictIff(a, b, cmp);
    VerdictIff(a + moreA, b + moreB, cmp);
    if SomePairMatches(a, b, cmp) {
      var r, o :| r in a && o in b && cmp(r, o) == Some(true);
      assert r in a + moreA && o in b + moreB;
    }
    if a != [] && b != [] && |a + moreA| == 1 && |b + moreB| == 1 {
      assert a + moreA == a && b + moreB == b;
    }
  }

  // ---- Settling a claim ----

  /** What the model located for a claim, if anything. */
  type Located = (Option<string>, Option<string>)

  function AsList(value: Option<string>): seq<string> {
    if value.Some? && value.value != "" then [value.value] else []
  }

  datatype Settled = Settled(agrees: Option<bool>, value: Option<string>, confidence: Confidence)

  /** Deterministically read values decide; only where they do not are the model's located strings compared,
      by the same comparator. */
  function SettleClaim(reported: seq<string>, official: seq<string>, located: Located, cmp: Comparator): Settled {
    var first := Compared(reported, official, cmp);
    if first.0.Some? then Settled(first.0, first.1, Explicit)
    else
      var second := Compared(AsList(located.0), AsList(located.1), cmp);
      Settled(second.0, second.1, ModelExtracted)
  }

  /** The values read from the two pages decide nothing: no pair matches, and they are not one value against another
      that differs. */
  ghost predicate Undecided(reported: seq<string>, official: seq<string>, cmp: Comparator) {
    && !SomePairMatches(reported, official, cmp)
    && !(|reported| == 1 && |official| == 1 && cmp(reported[0], official[0]) == Some(false))
  }

  /** The model located something on both pages. */
  predicate LocatedBoth(located: Located) {
    located.0.Some? && located.1.Some? && located.0.value != "" && located.1.value != ""
  }

  /** Each side offered exactly one value, both could be read, and they differ; the model's pair is looked at
      only when the deterministic values gave no verdict. */
  ghost predicate Contradicted(reported: seq<string>, official: seq<string>, located: Located, cmp: Comparator) {
    || (|reported| == 1 && |official| == 1 && cmp(reported[0], official[0]) == Some(false))
    || (&& Undecided(reported, official, cmp) && LocatedBoth(located)
        && cmp(located.0.value, located.1.value) == Some(false))
  }

  /** Some reported value matches some official one; or those gave no verdict, and the model's pair matches. */
  ghost predicate Corroborated(reported: seq<string>, official: seq<string>, located: Located, cmp: Comparator) {
    || SomePairMatches(reported, official, cmp)
    || (&& Undecided(reported, official, cmp) && LocatedBoth(located)
        && cmp(located.0.value, located.1.value) == Some(true))
  }

  lemma LocatedVerdict(located: Located, cmp: Comparator)
    ensures var verdict := Compared(AsList(located.0), AsList(located.1), cmp).0;
            verdict == if LocatedBoth(located) then cmp(located.0.value, located.1.value) else None
  {
    var a, b := AsList(located.0), AsList(located.1);
    VerdictIff(a, b, cmp);
    if LocatedBoth(located) {
      assert SomePairMatches(a, b, cmp) <==> cmp(located.0.value, located.1.value) == Some(true) by {
        if cmp(located.0.value, located.1.value) == Some(true) {
          assert located.0.value in a && located.1.value in b;
        }
      }
    }
  }

  lemma ThreeValued(verdict: Option<bool>)
    ensures verdict.None? || verdict == Some(true) || verdict == Some(false)
  {
    match verdict {
      case None =>
      case Some(b) => if b { assert b == true; } else { assert b == false; }
    }
  }

  /** A claim settled: contradicted, or corroborated on a value, exactly as the two pages and the model's pair say. */
  lemma SettledFacts(reported: seq<string>, official: seq<string>, located: Located, cmp: Comparator)
    requires forall o | o in official :: o != ""
    ensures var s := SettleClaim(reported, official, located, cmp);
            && (s.agrees == Some(false) <==> Contradicted(reported, official, located, cmp))
            && (s.agrees == Some(true) <==> Corroborated(reported, official, located, cmp))
            && (s.agrees == Some(true) ==> s.value.Some? && s.value.value != "")
  {
    VerdictIff(reported, official, cmp);
    VerdictIff(AsList(located.0), AsList(located.1), cmp);
    LocatedVerdict(located, cmp);
    var first, second := Compared(reported, official, cmp).0, Compared(AsList(located.0), AsList(located.1), cmp).0;
    ThreeValued(first);
    assert first.None? <==> Undecided(reported, official, cmp);
    assert SettleClaim(reported, official, located, cmp).agrees == if first.Some? then first else second;
  }

  // ---- The same, on what was read ----

  /** Two readings of one value. */
  ghost predicate Alike<V>(a: Option<V>, b: Option<V>) {
    a.Some? && b.Some? && a.value == b.value
  }

  /** Two readings of different values. */
  ghost predicate Apart<V>(a: Option<V>, b: Option<V>) {
    a.Some? && b.Some? && a.value != b.value
  }

  /** The one value these mentions state, repetitions and empty ones aside. */
  ghost predicate Only(mentions: seq<string>, v: string) {
    v != "" && v in mentions && forall m | m in mentions :: m == "" || m == v
  }

  /** Some value stated on one side is read as some value stated on the other. */
  ghost predicate StatedAlike<V>(reported: seq<string>, official: seq<string>, read: string -> Option<V>) {
    exists r, o | r in reported && o in official :: r != "" && o != "" && Alike(read(r), read(o))
  }

  /** Each side states one value, and the two are read as different ones. */
  ghost predicate StatedApart<V>(reported: seq<string>, official: seq<string>, read: string -> Option<V>) {
    exists r, o | Only(reported, r) && Only(official, o) :: Apart(read(r), read(o))
  }

  /** What the comparator makes of two strings is what it makes of their readings, and nothing of their spelling. */
  ghost predicate ComparesReadings<V>(cmp: Comparator, read: string -> Option<V>) {
    forall a, b :: && (cmp(a, b) == Some(true) <==> Alike(read(a), read(b)))
                   && (cmp(a, b) == Some(false) <==> Apart(read(a), read(b)))
  }

  lemma OnlyIff(mentions: seq<string>, v: string)
    ensures Only(mentions, v) <==> Values(mentions) == [v]
  {
    ValuesFacts(mentions);
    var values := Values(mentions);
    if Only(mentions, v) {
      assert v in values;
      var i :| 0 <= i < |values| && values[i] == v;
      assert forall k | 0 <= k < |values| :: values[k] in values && values[k] == v;
      assert values[0] == v && values[|values| - 1] == v;
    }
    if values == [v] { assert v in values; }
  }

  lemma SomePairAlike<V>(reported: seq<string>, official: seq<string>, cmp: Comparator, read: string -> Option<V>)
    requires ComparesReadings(cmp, read)
    ensures SomePairMatches(Values(reported), Values(official), cmp) <==> StatedAlike(reported, official, read)
  {
    ValuesFacts(reported);
    ValuesFacts(official);
    if SomePairMatches(Values(reported), Values(official), cmp) {
      var r, o :| r in Values(reported) && o in Values(official) && cmp(r, o) == Some(true);
      assert r in reported && o in official && Alike(read(r), read(o));
    }
    if StatedAlike(reported, official, read) {
      var r, o :| r in reported && o in official && r != "" && o != "" && Alike(read(r), read(o));
      assert r in Values(reported) && o in Values(official) && cmp(r, o) == Some(true);
    }
  }

  lemma SinglesApart<V>(reported: seq<string>, official: seq<string>, cmp: Comparator, read: string -> Option<V>)
    requires ComparesReadings(cmp, read)
    ensures var a, b := Values(reported), Values(official);
            |a| == 1 && |b| == 1 && cmp(a[0], b[0]) == Some(false) <==> StatedApart(reported, official, read)
  {
    var a, b := Values(reported), Values(official);
    forall v ensures Only(reported, v) <==> a == [v] { OnlyIff(reported, v); }
    forall v ensures Only(official, v) <==> b == [v] { OnlyIff(official, v); }
    if |a| == 1 && |b| == 1 && cmp(a[0], b[0]) == Some(false) {
      assert a == [a[0]] && b == [b[0]];
      assert Only(reported, a[0]) && Only(official, b[0]) && Apart(read(a[0]), read(b[0]));
    }
  }

  /** A claim settled, in terms of what the mentions are read as. */
  lemma SettledReadings<V>(reported: seq<string>, official: seq<string>, located: Located, cmp: Comparator,
                               read: string -> Option<V>)
    requires ComparesReadings(cmp, read)
    ensures var s := SettleClaim(Values(reported), Values(official), located, cmp);
            var alike, apart := StatedAlike(reported, official, read), StatedApart(reported, official, read);
            && (s.agrees == Some(false) <==>
                  apart || (!alike && LocatedBoth(located) && Apart(read(located.0.value), read(located.1.value))))
            && (s.agrees == Some(true) <==>
                  alike || (!apart && LocatedBoth(located) && Alike(read(located.0.value), read(located.1.value))))
            && (s.agrees == Some(true) ==> s.value.Some? && s.value.value != "")
  {
    ValuesFacts(official);
    SettledFacts(Values(reported), Values(official), located, cmp);
    SomePairAlike(reported, official, cmp, read);
    SinglesApart(reported, official, cmp, read);
  }

  /** The value an agreement rests on: one the official page states that is read as a reported one is; or, where no two
      stated values are read alike, the model's official quote, read as its reported one is. */
  lemma SettledValue<V>(reported: seq<string>, official: seq<string>, located: Located, cmp: Comparator,
                        read: string -> Option<V>)
    requires ComparesReadings(cmp, read)
    requires SettleClaim(Values(reported), Values(official), located, cmp).agrees == Some(true)
    ensures var s := SettleClaim(Values(reported), Values(official), located, cmp);
            && s.value.Some?
            && (s.confidence == Explicit <==> StatedAlike(reported, official, read))
            && if s.confidence == Explicit
               then s.value.value in official && exists r | r in reported :: Alike(read(r), read(s.value.value))
               else LocatedBoth(located) && s.value == located.1 && Alike(read(located.0.value), read(located.1.value))
  {
    var a, b := Values(reported), Values(official);
    ValuesFacts(reported);
    ValuesFacts(official);
    FirstMatchIff(a, b, cmp);
    SomePairAlike(reported, official, cmp, read);
    VerdictIff(a, b, cmp);
    LocatedVerdict(located, cmp);
    if Compared(a, b, cmp).0.None? { QuoteIsValue(located, cmp); }
  }

  lemma QuoteIsValue(located: Located, cmp: Comparator)
    requires Compared(AsList(located.0), AsList(located.1), cmp).0 == Some(true)
    ensures LocatedBoth(located) && Compared(AsList(located.0), AsList(located.1), cmp).1 == located.1
  {
    VerdictIff(AsList(located.0), AsList(located.1), cmp);
  }

  /** A three-valued comparator reports difference only between two values it could read. */
  lemma DifferenceNeedsTwoReadings(a: string, b: string, parse: string -> Option<int>)
    ensures AmountsMatch(a, b) == Some(false) <==>
              ParseAmount(a).Some? && ParseAmount(b).Some? && ParseAmount(a) != ParseAmount(b)
    ensures DeadlinesMatch(parse, a, b) == Some(false) <==> parse(a).Some? && parse(b).Some? && parse(a) != parse(b)
    ensures AmountsMatch(a, b) == AmountsMatch(b, a) && DeadlinesMatch(parse, a, b) == DeadlinesMatch(parse, b, a)
  {
  }

  function ClaimEvidence(claim: Claim, s: Settled, url: Option<Url>): seq<Evidence> {
    if s.agrees == Some(true) && s.value.Some? && s.value.value != ""
    then [Agreement(claim, s.value.value, url, s.confidence)] else []
  }

  /** Both claims settled, evidence attached for each agreement. */
  function SettleAgreement(c: Candidate, funding: Settled, deadline: Settled): Candidate {
    c.(evidence := c.evidence + ClaimEvidence(Funding, funding, c.officialUrl)
                   + ClaimEvidence(Deadline, deadline, c.officialUrl),
       amountAgrees := funding.agrees,
       deadlineAgrees := deadline.agrees)
  }

  lemma CoversConcat(a: seq<Evidence>, b: seq<Evidence>, claim: Claim)
    ensures Covers(a + b, claim) <==> Covers(a, claim) || Covers(b, claim)
  {
    if Covers(a, claim) {
      var i :| 0 <= i < |a| && a[i].Agreement? && a[i].claim == claim;
      assert (a + b)[i] == a[i];
    }
    if Covers(b, claim) {
      var i :| 0 <= i < |b| && b[i].Agreement? && b[i].claim == claim;
      assert (a + b)[|a| + i] == b[i];
    }
  }

  /** Settling a candidate without prior agreements makes evidence and verdicts say the same thing. */
  lemma SettledIsCovered(c: Candidate, funding: Settled, deadline: Settled)
    requires !Covers(c.evidence, Funding) && !Covers(c.evidence, Deadline)
    requires funding.agrees == Some(true) ==> funding.value.Some? && funding.value.value != ""
    requires deadline.agrees == Some(true) ==> deadline.value.Some? && deadline.value.value != ""
    ensures var d := SettleAgreement(c, funding, deadline);
            && (Covers(d.evidence, Funding) <==> d.amountAgrees == Some(true))
            && (Covers(d.evidence, Deadline) <==> d.deadlineAgrees == Some(true))
  {
    var f, g := ClaimEvidence(Funding, funding, c.officialUrl), ClaimEvidence(Deadline, deadline, c.officialUrl);
    CoversConcat(c.evidence + f, g, Funding);
    CoversConcat(c.evidence, f, Funding);
    CoversConcat(c.evidence + f, g, Deadline);
    CoversConcat(c.evidence, f, Deadline);
    if funding.agrees == Some(true) { assert f[0].Agreement? && f[0].claim == Funding; }
    if deadline.agrees == Some(true) { assert g[0].Agreement? && g[0].claim == Deadline; }
  }
}
