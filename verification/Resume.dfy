/** Attempts that fail and resume: one committed state per node, one side table that is never checkpointed. */
module Resume {
  import opened Wrappers
  import opened Candidates
  import opened Comparison
  import opened Dedupe
  import opened Nodes
  import opened Graph
  import opened Policies

  /** `lost` records which candidates reached the comparison with a readable page whose text was gone; `log` the
      nodes that committed. Both are history, read by nobody. */
  datatype Exec = Exec(node: NodeName, st: State, texts: Texts, lost: set<nat>, log: seq<NodeName>)

  /** A node's result is committed; or the attempt dies and the next one resumes with whatever table its process
      happens to hold: empty after a restart, half filled or half emptied after a failure inside a node. */
  datatype Event = Commit | Interrupt(texts: Texts)

  /** A fetched page that the comparison would have read, with nothing in the table. */
  function LostIn(w: World, cs: seq<Candidate>, texts: Texts): set<nat> {
    set i | 0 <= i < |cs| && Readable(cs[i], PageText(w, cs[i])) && TextOf(texts, w.job, cs[i].key).None?
  }

  /** Whatever a process holds for this job, it fetched for this job. */
  ghost predicate Genuine(w: World, texts: Texts) {
    forall i | 0 <= i < |Found(w)| ::
      TextOf(texts, w.job, Found(w)[i].key).Some? ==> TextOf(texts, w.job, Found(w)[i].key) == PageText(w, Found(w)[i])
  }

  const START: Exec := Exec(LoadDiscovery, INITIAL, map[], {}, [])

  function Next(w: World, x: Exec, e: Event): Exec {
    match e
    case Commit =>
      var r := ExecNode(w, x.node, x.st, x.texts);
      Exec(Successor(x.node, r.0), r.0, r.1,
           if x.node == CompareEvidence then LostIn(w, x.st.candidates, x.texts) else x.lost,
           x.log + [x.node])
    case Interrupt(texts) => x.(texts := texts)
  }

  ghost predicate Valid(w: World, x: Exec, e: Event) {
    match e
    case Commit => x.node != End
    case Interrupt(texts) => Genuine(w, texts)
  }

  function Run(w: World, es: seq<Event>): Exec {
    if es == [] then START else Next(w, Run(w, es[..|es| - 1]), es[|es| - 1])
  }

  ghost predicate ValidRun(w: World, es: seq<Event>) {
    es == [] || (ValidRun(w, es[..|es| - 1]) && Valid(w, Run(w, es[..|es| - 1]), es[|es| - 1]))
  }

  lemma NodesIgnoreTheTable(w: World, n: NodeName, st: State, a: Texts, b: Texts)
    requires n != CompareEvidence
    ensures ExecNode(w, n, st, a).0 == ExecNode(w, n, st, b).0
  {
  }

  // ---- The invariant ----

  ghost predicate Inv(w: World, x: Exec) {
    && OnPath(w, x.node)
    && x.log == PathTo(w, x.node)
    && Genuine(w, x.texts)
    && (Rank(x.node) <= Rank(CompareEvidence) || !Examined(w) ==> x.lost == {})
    && (forall i | i in x.lost :: i < |Found(w)| && Readable(Fetched(w)[i], PageText(w, Found(w)[i])))
    && x.st == AtWith(w, x.node, x.lost)
  }

  lemma FetchKeepsPage(w: World, c: Candidate)
    ensures FetchOne(w, c).officialUrl == c.officialUrl && FetchOne(w, c).key == c.key
    ensures PageText(w, FetchOne(w, c)) == PageText(w, c)
  {
  }

  lemma FetchedKeys(w: World)
    ensures |Fetched(w)| == |Found(w)| && DistinctKeys(Found(w)) && DistinctKeys(Fetched(w))
    ensures forall i | 0 <= i < |Found(w)| ::
              Fetched(w)[i].key == Found(w)[i].key && PageText(w, Fetched(w)[i]) == PageText(w, Found(w)[i])
  {
    FoundFacts(w);
    forall i | 0 <= i < |Found(w)|
      ensures Fetched(w)[i].key == Found(w)[i].key && PageText(w, Fetched(w)[i]) == PageText(w, Found(w)[i])
    {
      FetchKeepsPage(w, Found(w)[i]);
    }
  }

  /** One candidate's comparison, given only what its own table entry says. */
  lemma ComparedFromEntry(w: World, i: nat, texts: Texts)
    requires i < |Found(w)| && Genuine(w, texts)
    ensures ComparePass(w, Fetched(w), texts).0[i] == Partly(w, LostIn(w, Fetched(w), texts))[i]
  {
    FetchedKeys(w);
    ComparePassIs(w, Fetched(w), texts, i);
    var c := Fetched(w)[i];
    var entry := TextOf(texts, w.job, c.key);
    assert i in LostIn(w, Fetched(w), texts) <==> Readable(c, PageText(w, Found(w)[i])) && entry.None?;
    assert entry.Some? ==> entry == PageText(w, Found(w)[i]);
    assert ComparedAll(w)[i] == CompareOne(w, c, i, PageText(w, Found(w)[i]));
  }

  lemma ComparePassPartly(w: World, texts: Texts)
    requires Genuine(w, texts)
    ensures ComparePass(w, Fetched(w), texts).0 == Partly(w, LostIn(w, Fetched(w), texts))
  {
    forall i | 0 <= i < |Found(w)|
      ensures ComparePass(w, Fetched(w), texts).0[i] == Partly(w, LostIn(w, Fetched(w), texts))[i]
    {
      ComparedFromEntry(w, i, texts);
    }
  }

  lemma FetchKeepsGenuine(w: World, texts: Texts)
    requires Genuine(w, texts)
    ensures Genuine(w, PutTexts(w, Found(w), texts))
  {
    FoundFacts(w);
    forall i | 0 <= i < |Found(w)| ensures var t := TextOf(PutTexts(w, Found(w), texts), w.job, Found(w)[i].key);
                                           t.Some? ==> t == PageText(w, Found(w)[i])
    {
      PutTextsGives(w, Found(w), texts, i);
    }
  }

  lemma CompareKeepsGenuine(w: World, cs: seq<Candidate>, texts: Texts)
    requires Genuine(w, texts)
    ensures Genuine(w, ComparePass(w, cs, texts).1)
  {
    forall i | 0 <= i < |Found(w)| ensures var t := TextOf(ComparePass(w, cs, texts).1, w.job, Found(w)[i].key);
                                           t.Some? ==> t == PageText(w, Found(w)[i])
    {
      ComparePassTable(w, cs, texts, (w.job, Found(w)[i].key));
    }
  }

  /** What a commit writes is the closed form of the next checkpoint. */
  lemma CommitWrites(w: World, x: Exec)
    requires Inv(w, x) && x.node != End
    ensures ExecNode(w, x.node, x.st, x.texts).0 == Advance(w, x.node, x.st, Next(w, x, Commit).lost)
  {
    if x.node == CompareEvidence {
      CandidatesAtCompare(w, x);
      ComparePassPartly(w, x.texts);
    } else {
      NodesIgnoreTheTable(w, x.node, x.st, x.texts, map[]);
    }
  }

  lemma PastClassification(w: World, n: NodeName)
    requires OnPath(w, n) && 4 <= Rank(n) <= 9
    ensures Examined(w)
  {
  }

  lemma CandidatesAtFetch(w: World, x: Exec)
    requires Inv(w, x) && x.node == FetchOfficial
    ensures Holds(x.st, Found(w))
  {
    AtFound(w, x.lost);
  }

  lemma CandidatesAtCompare(w: World, x: Exec)
    requires Inv(w, x) && x.node == CompareEvidence
    ensures Holds(x.st, Fetched(w))
  {
    AtFetched(w, x.lost);
  }

  lemma TableAfter(w: World, n: NodeName, st: State, texts: Texts)
    ensures ExecNode(w, n, st, texts).1 ==
            if n == FetchOfficial then PutTexts(w, st.candidates, texts)
            else if n == CompareEvidence then ComparePass(w, st.candidates, texts).1 else texts
  {
  }

  lemma CommitKeepsTable(w: World, x: Exec)
    requires Inv(w, x) && x.node != End
    ensures Genuine(w, ExecNode(w, x.node, x.st, x.texts).1)
  {
    TableAfter(w, x.node, x.st, x.texts);
    if x.node == FetchOfficial {
      CandidatesAtFetch(w, x);
      FetchKeepsGenuine(w, x.texts);
    } else if x.node == CompareEvidence {
      CompareKeepsGenuine(w, x.st.candidates, x.texts);
    }
  }

  lemma LossesAreReadable(w: World, x: Exec)
    requires Inv(w, x) && x.node == CompareEvidence
    ensures Holds(x.st, Fetched(w))
    ensures forall i | i in LostIn(w, x.st.candidates, x.texts) ::
              i < |Found(w)| && Readable(Fetched(w)[i], PageText(w, Found(w)[i]))
  {
    CandidatesAtCompare(w, x);
    FetchedKeys(w);
  }

  lemma CommitAdvances(w: World, x: Exec)
    requires Inv(w, x) && x.node != End
    ensures Next(w, x, Commit).node != LoadDiscovery
    ensures var y := Next(w, x, Commit);
            && OnPath(w, y.node) && Before(w, y.node) == x.node
            && y.st == Advance(w, x.node, AtWith(w, x.node, y.lost), y.lost)
  {
    var y := Next(w, x, Commit);
    CommitWrites(w, x);
    if x.node == CompareEvidence {
      SameUntilCompared(w, x.node, x.lost);
      SameUntilCompared(w, x.node, y.lost);
    }
    PathAdvances(w, x.node, y.lost);
  }

  lemma CommitLoses(w: World, x: Exec)
    requires Inv(w, x) && x.node != End
    ensures var y := Next(w, x, Commit);
            && (Rank(y.node) <= Rank(CompareEvidence) || !Examined(w) ==> y.lost == {})
            && (forall i | i in y.lost :: i < |Found(w)| && Readable(Fetched(w)[i], PageText(w, Found(w)[i])))
  {
    SuccessorsAdvance(x.node, ExecNode(w, x.node, x.st, x.texts).0);
    if x.node == CompareEvidence {
      PastClassification(w, x.node);
      LossesAreReadable(w, x);
    }
  }

  lemma StepKeepsInv(w: World, x: Exec, e: Event)
    requires Inv(w, x) && Valid(w, x, e)
    ensures Inv(w, Next(w, x, e))
  {
    if e.Commit? {
      CommitAdvances(w, x);
      CommitLoses(w, x);
      CommitKeepsTable(w, x);
      StartIsFirst(w, x);
    }
  }

  lemma StartIsFirst(w: World, x: Exec)
    requires x.node != End
    ensures Next(w, x, Commit).node != LoadDiscovery
  {
    SuccessorsAdvance(x.node, ExecNode(w, x.node, x.st, x.texts).0);
  }

  lemma {:induction false} RunKeepsInv(w: World, es: seq<Event>)
    requires ValidRun(w, es)
    ensures Inv(w, Run(w, es))
  {
    if es != [] {
      RunKeepsInv(w, es[..|es| - 1]);
      StepKeepsInv(w, Run(w, es[..|es| - 1]), es[|es| - 1]);
    }
  }

  // ---- What interruptions can and cannot change ----

  lemma {:induction false} PathRanks(w: World, n: NodeName)
    ensures forall i | 0 <= i < |PathTo(w, n)| :: Rank(PathTo(w, n)[i]) < Rank(n)
    ensures forall i, j | 0 <= i < j < |PathTo(w, n)| :: Rank(PathTo(w, n)[i]) < Rank(PathTo(w, n)[j])
    decreases Rank(n)
  {
    if n != LoadDiscovery { PathRanks(w, Before(w, n)); }
  }

  /** However often the attempts fail, no node commits twice, and those that commit are the ones an uninterrupted
      run takes to get there. In particular fetch_official is not run again for a restart that comes after it. */
  lemma NoNodeRunsTwice(w: World, es: seq<Event>)
    requires ValidRun(w, es)
    ensures var x := Run(w, es);
            && x.log == PathTo(w, x.node)
            && forall i, j | 0 <= i < j < |x.log| :: Rank(x.log[i]) < Rank(x.log[j])
  {
    RunKeepsInv(w, es);
    PathRanks(w, Run(w, es).node);
  }

  /** A candidate that was fetched but never compared has no verdict, so all the policy can do is ask for more. */
  lemma UncomparedAsksForMore(w: World, i: nat)
    requires i < |Found(w)|
    ensures DecideOutcome(EligibilityOne(w, Fetched(w)[i], i)).0 == MoreEvidenceRequired
  {
    FoundOne(w, i);
    FetchedIsNeutral(w, Found(w)[i]);
    ComparedIsCoupled(w, Found(w)[i], i, None);
    assert Fetched(w)[i] == FetchOne(w, Found(w)[i]) == CompareOne(w, FetchOne(w, Found(w)[i]), i, None);
    EligibilityKeepsCoupled(w, Fetched(w)[i], i);
    DecisionTable(EligibilityOne(w, Fetched(w)[i], i));
  }

  lemma LostAsksForMore(w: World, lost: set<nat>, i: nat)
    requires i < |Found(w)| && Partly(w, lost)[i] == Fetched(w)[i]
    ensures DecideOutcome(JudgedWith(w, lost, i)).0 == MoreEvidenceRequired
  {
    UncomparedAsksForMore(w, i);
  }

  lemma KeptIsUntouched(w: World, lost: set<nat>, i: nat)
    requires i < |Found(w)| && i !in lost
    ensures JudgedWith(w, lost, i) == Judged(w, i)
  {
  }

  /** Resuming refines the uninterrupted run, candidate by candidate: each one ends exactly as it would have, or,
      where its page text was gone when it was to be compared, asking for more evidence. */
  lemma ResumeRefines(w: World, es: seq<Event>)
    requires ValidRun(w, es) && Run(w, es).node == End
    ensures var x, clean := Run(w, es), At(w, End);
            && |x.st.candidates| == |clean.candidates|
            && (forall i | 0 <= i < |clean.candidates| ::
                  if i in x.lost then x.st.candidates[i].outcome == Some(MoreEvidenceRequired)
                  else x.st.candidates[i] == clean.candidates[i])
            && (x.lost == {} ==> x.st == clean)
  {
    var x := Run(w, es);
    RunKeepsInv(w, es);
    if Examined(w) {
      FinalWith(w, x.lost);
      FinalWith(w, {});
      forall i | 0 <= i < |Found(w)|
        ensures if i in x.lost then x.st.candidates[i].outcome == Some(MoreEvidenceRequired)
                else x.st.candidates[i] == At(w, End).candidates[i]
      {
        if i in x.lost {
          LostAsksForMore(w, x.lost, i);
        } else {
          KeptIsUntouched(w, x.lost, i);
          KeptIsUntouched(w, {}, i);
        }
      }
    }
  }

  /** Some candidate whose text was there to be compared is contradicted by its page. */
  ghost predicate SomeKeptContradicted(w: World, lost: set<nat>) {
    exists i | 0 <= i < |Found(w)| :: i !in lost && PageContradicts(w, i)
  }

  /** Some candidate whose text was there to be compared needs review. */
  ghost predicate SomeKeptReview(w: World, lost: set<nat>) {
    exists i | 0 <= i < |Found(w)| :: i !in lost && NeedsReview(w, i)
  }

  ghost predicate AllKeptPass(w: World, lost: set<nat>) {
    forall i | 0 <= i < |Found(w)| :: i !in lost && PassesAll(w, i)
  }

  /** One candidate's outcome: what its page says if its text was there, and otherwise a request for more. */
  lemma OutcomeWith(w: World, lost: set<nat>, i: nat)
    requires i < |Found(w)|
    ensures var outcome := DecideOutcome(JudgedWith(w, lost, i)).0;
            && (outcome == RejectRecommended <==> i !in lost && PageContradicts(w, i))
            && (outcome == ReviewRequired <==> i !in lost && NeedsReview(w, i))
            && (outcome == AutoCheckEligible <==> i !in lost && PassesAll(w, i))
  {
    if i in lost {
      LostAsksForMore(w, lost, i);
    } else {
      KeptIsUntouched(w, lost, i);
      JudgedOutcome(w, i);
    }
  }

  lemma KeptRejectPresent(w: World, lost: set<nat>, cs: seq<Candidate>)
    requires |cs| == |Found(w)| && forall i | 0 <= i < |cs| :: cs[i] == DecideOne(JudgedWith(w, lost, i))
    ensures Present(cs, RejectRecommended) <==> SomeKeptContradicted(w, lost)
  {
    forall i | 0 <= i < |cs|
      ensures cs[i].outcome == Some(RejectRecommended) <==> i !in lost && PageContradicts(w, i)
    {
      OutcomeWith(w, lost, i);
    }
    if SomeKeptContradicted(w, lost) {
      var i :| 0 <= i < |Found(w)| && i !in lost && PageContradicts(w, i);
      assert cs[i].outcome == Some(RejectRecommended);
    }
  }

  lemma KeptReviewPresent(w: World, lost: set<nat>, cs: seq<Candidate>)
    requires |cs| == |Found(w)| && forall i | 0 <= i < |cs| :: cs[i] == DecideOne(JudgedWith(w, lost, i))
    ensures Present(cs, ReviewRequired) <==> SomeKeptReview(w, lost)
  {
    forall i | 0 <= i < |cs| ensures cs[i].outcome == Some(ReviewRequired) <==> i !in lost && NeedsReview(w, i) {
      OutcomeWith(w, lost, i);
    }
    if SomeKeptReview(w, lost) {
      var i :| 0 <= i < |Found(w)| && i !in lost && NeedsReview(w, i);
      assert cs[i].outcome == Some(ReviewRequired);
    }
  }

  lemma KeptAutoEverywhere(w: World, lost: set<nat>, cs: seq<Candidate>)
    requires |cs| == |Found(w)| && forall i | 0 <= i < |cs| :: cs[i] == DecideOne(JudgedWith(w, lost, i))
    ensures (forall i | 0 <= i < |cs| :: cs[i].outcome == Some(AutoCheckEligible)) <==> AllKeptPass(w, lost)
  {
    forall i | 0 <= i < |cs| ensures cs[i].outcome == Some(AutoCheckEligible) <==> i !in lost && PassesAll(w, i) {
      OutcomeWith(w, lost, i);
    }
  }

  /** The job's outcome once these texts were lost, in full. */
  lemma JobOutcomeWith(w: World, lost: set<nat>)
    requires Examined(w)
    ensures var outcome := AtWith(w, End, lost).outcome;
            && (outcome == Some(RejectRecommended) <==> SomeKeptContradicted(w, lost) && !SomeKeptReview(w, lost))
            && (outcome == Some(ReviewRequired) <==> SomeKeptReview(w, lost))
            && (outcome == Some(AutoCheckEligible) <==> Found(w) != [] && AllKeptPass(w, lost))
  {
    FinalWith(w, lost);
    var cs := AtWith(w, End, lost).candidates;
    RollUpIff(cs);
    KeptRejectPresent(w, lost, cs);
    KeptReviewPresent(w, lost, cs);
    KeptAutoEverywhere(w, lost, cs);
  }

  /** What a finished run says, however it was interrupted: it rejects exactly when the page is no scholarship, or some
      candidate that was compared is contradicted and none that was compared needs review; it asks for review exactly
      when one that was compared needs it; and it recommends automatic checking exactly when all were compared and
      pass, which is then what the uninterrupted run says too. */
  lemma OutcomeOfRun(w: World, es: seq<Event>)
    requires ValidRun(w, es) && Run(w, es).node == End
    ensures var x := Run(w, es);
            && (x.st.outcome == Some(RejectRecommended) <==>
                  w.pageUsable && (w.classification == Some(NotAScholarship)
                                   || (SomeKeptContradicted(w, x.lost) && !SomeKeptReview(w, x.lost))))
            && (x.st.outcome == Some(ReviewRequired) <==> Examined(w) && SomeKeptReview(w, x.lost))
            && (x.st.outcome == Some(AutoCheckEligible) <==> Examined(w) && Found(w) != [] && AllKeptPass(w, x.lost))
            && (x.st.outcome == Some(AutoCheckEligible) ==> x.st == At(w, End))
  {
    var x := Run(w, es);
    RunKeepsInv(w, es);
    if Examined(w) {
      JobOutcomeWith(w, x.lost);
      if AllKeptPass(w, x.lost) { assert x.lost == {}; }
    } else {
      ShortRuns(w, x.lost);
    }
  }

  // ---- When something is lost ----

  /** Every interruption comes while some node other than the comparison is pending. */
  ghost predicate Spared(w: World, es: seq<Event>) {
    es == []
    || (&& Spared(w, es[..|es| - 1])
        && (es[|es| - 1].Interrupt? ==> Run(w, es[..|es| - 1]).node != CompareEvidence))
  }

  ghost predicate Held(w: World, texts: Texts) {
    forall i | 0 <= i < |Found(w)| :: PageText(w, Found(w)[i]).Some? ==> TextOf(texts, w.job, Found(w)[i].key).Some?
  }

  lemma FetchHolds(w: World, texts: Texts)
    ensures Held(w, PutTexts(w, Found(w), texts))
  {
    FoundFacts(w);
    forall i | 0 <= i < |Found(w)|
      ensures PageText(w, Found(w)[i]).Some? ==> TextOf(PutTexts(w, Found(w), texts), w.job, Found(w)[i].key).Some?
    {
      PutTextsGives(w, Found(w), texts, i);
    }
  }

  lemma HeldLosesNothing(w: World, texts: Texts)
    requires Held(w, texts)
    ensures LostIn(w, Fetched(w), texts) == {}
  {
    FetchedKeys(w);
  }

  lemma SparedStep(w: World, x: Exec, e: Event)
    requires Inv(w, x) && Valid(w, x, e) && (e.Interrupt? ==> x.node != CompareEvidence)
    requires x.lost == {} && (x.node == CompareEvidence ==> Held(w, x.texts))
    ensures Next(w, x, e).lost == {} && (Next(w, x, e).node == CompareEvidence ==> Held(w, Next(w, x, e).texts))
  {
    if e.Commit? {
      TableAfter(w, x.node, x.st, x.texts);
      if x.node == CompareEvidence {
        LossesAreReadable(w, x);
        HeldLosesNothing(w, x.texts);
      } else if x.node == FetchOfficial {
        CandidatesAtFetch(w, x);
        FetchHolds(w, x.texts);
      } else {
        OnlyFetchPrecedes(w, x.node, ExecNode(w, x.node, x.st, x.texts).0);
      }
    }
  }

  lemma OnlyFetchPrecedes(w: World, n: NodeName, st: State)
    ensures Successor(n, st) == CompareEvidence <==> n == FetchOfficial
  {
  }

  lemma {:induction false} SparedKeeps(w: World, es: seq<Event>)
    requires ValidRun(w, es) && Spared(w, es)
    ensures Run(w, es).lost == {}
    ensures Run(w, es).node == CompareEvidence ==> Held(w, Run(w, es).texts)
  {
    if es != [] {
      SparedKeeps(w, es[..|es| - 1]);
      RunKeepsInv(w, es[..|es| - 1]);
      SparedStep(w, Run(w, es[..|es| - 1]), es[|es| - 1]);
    }
  }

  /** Only an interruption while the comparison is pending can change anything: without one, the run ends in the very
      state of the uninterrupted run, whatever else failed. */
  lemma SparedRunsAreClean(w: World, es: seq<Event>)
    requires ValidRun(w, es) && Spared(w, es) && Run(w, es).node == End
    ensures Run(w, es).st == At(w, End)
  {
    SparedKeeps(w, es);
    ResumeRefines(w, es);
  }

  lemma {:induction false} LossIsFinal(w: World, es: seq<Event>, more: seq<Event>)
    requires ValidRun(w, es + more) && ValidRun(w, es) && Rank(Run(w, es).node) > Rank(CompareEvidence)
    ensures Run(w, es + more).lost == Run(w, es).lost && Rank(Run(w, es + more).node) > Rank(CompareEvidence)
    decreases |more|
  {
    if more == [] {
      assert es + more == es;
    } else {
      var front := more[..|more| - 1];
      assert (es + more)[..|es + more| - 1] == es + front && (es + more)[|es + more| - 1] == more[|more| - 1];
      LossIsFinal(w, es, front);
      RunKeepsInv(w, es + front);
      if more[|more| - 1].Commit? { SuccessorsAdvanceOrStay(w, Run(w, es + front)); }
    }
  }

  lemma SuccessorsAdvanceOrStay(w: World, x: Exec)
    requires x.node != End
    ensures Rank(Next(w, x, Commit).node) > Rank(x.node)
  {
    SuccessorsAdvance(x.node, ExecNode(w, x.node, x.st, x.texts).0);
  }

  lemma {:induction false} PrefixValid(w: World, es: seq<Event>, more: seq<Event>)
    requires ValidRun(w, es + more)
    ensures ValidRun(w, es)
    decreases |more|
  {
    if more == [] {
      assert es + more == es;
    } else {
      assert (es + more)[..|es + more| - 1] == es + more[..|more| - 1];
      PrefixValid(w, es, more[..|more| - 1]);
    }
  }

  lemma EmptyTableLosesAll(w: World)
    ensures Partly(w, LostIn(w, Fetched(w), map[])) == Fetched(w)
  {
    FetchedKeys(w);
    forall i | 0 <= i < |Found(w)| ensures Partly(w, LostIn(w, Fetched(w), map[]))[i] == Fetched(w)[i] {
      assert i in LostIn(w, Fetched(w), map[]) <==> Readable(Fetched(w)[i], PageText(w, Found(w)[i]));
      assert ComparedAll(w)[i] == CompareOne(w, Fetched(w)[i], i, PageText(w, Found(w)[i]));
    }
  }

  lemma AllAskForMore(cs: seq<Candidate>)
    requires forall i | 0 <= i < |cs| :: cs[i].outcome == Some(MoreEvidenceRequired)
    ensures RollUp(cs) == MoreEvidenceRequired
  {
    if cs != [] { assert cs[0].outcome == Some(MoreEvidenceRequired); }
  }

  lemma AllForgotten(w: World, lost: set<nat>)
    requires Examined(w) && Partly(w, lost) == Fetched(w)
    ensures AtWith(w, End, lost).outcome == Some(MoreEvidenceRequired)
    ensures forall i | 0 <= i < |AtWith(w, End, lost).candidates| ::
              AtWith(w, End, lost).candidates[i].outcome == Some(MoreEvidenceRequired)
  {
    FinalWith(w, lost);
    var cs := AtWith(w, End, lost).candidates;
    forall i | 0 <= i < |cs| ensures cs[i].outcome == Some(MoreEvidenceRequired) {
      LostAsksForMore(w, lost, i);
    }
    AllAskForMore(cs);
  }

  lemma WipedCommit(w: World, x: Exec)
    requires Inv(w, x) && x.node == CompareEvidence && x.texts == map[]
    ensures Next(w, x, Commit).lost == LostIn(w, Fetched(w), map[])
    ensures Rank(Next(w, x, Commit).node) > Rank(CompareEvidence) && Examined(w)
  {
    PastClassification(w, x.node);
    LossesAreReadable(w, x);
    SuccessorsAdvanceOrStay(w, x);
  }

  lemma LossyCommit(w: World, es: seq<Event>)
    requires Run(w, es).node == CompareEvidence && ValidRun(w, es + [Interrupt(map[]), Commit])
    ensures var x := Run(w, es + [Interrupt(map[]), Commit]);
            x.lost == LostIn(w, Fetched(w), map[]) && Rank(x.node) > Rank(CompareEvidence)
    ensures Examined(w)
  {
    var lossy, wiped := es + [Interrupt(map[]), Commit], es + [Interrupt(map[])];
    assert lossy[..|lossy| - 1] == wiped && lossy[|lossy| - 1] == Commit;
    assert wiped[..|wiped| - 1] == es && wiped[|wiped| - 1] == Interrupt(map[]);
    assert Run(w, lossy) == Next(w, Run(w, wiped), Commit);
    assert Run(w, wiped) == Run(w, es).(texts := map[]);
    RunKeepsInv(w, wiped);
    WipedCommit(w, Run(w, wiped));
  }

  /** A process restart while the comparison is pending costs every verdict. fetch_official is already committed, so
      nothing fetches the pages again: whatever they said, every candidate and the job end asking for more evidence. */
  lemma RestartForgetsVerdicts(w: World, es: seq<Event>, rest: seq<Event>)
    requires Run(w, es).node == CompareEvidence
    requires ValidRun(w, es + [Interrupt(map[]), Commit] + rest)
    requires Run(w, es + [Interrupt(map[]), Commit] + rest).node == End
    ensures var st := Run(w, es + [Interrupt(map[]), Commit] + rest).st;
            && st.outcome == Some(MoreEvidenceRequired)
            && forall i | 0 <= i < |st.candidates| :: st.candidates[i].outcome == Some(MoreEvidenceRequired)
  {
    var lossy := es + [Interrupt(map[]), Commit];
    PrefixValid(w, lossy, rest);
    LossyCommit(w, es);
    LossIsFinal(w, lossy, rest);
    RunKeepsInv(w, lossy + rest);
    EmptyTableLosesAll(w);
    AllForgotten(w, LostIn(w, Fetched(w), map[]));
  }
}
