/** Exactly which jobs can be hurt by an interruption, and a job that is. */
module ResumeLimits {
  import opened Wrappers
  import opened Candidates
  import opened Comparison
  import opened Dedupe
  import opened Nodes
  import opened Graph
  import opened Policies
  import opened Resume

  lemma PredecessorDetermines(w: World, a: NodeName, b: NodeName)
    requires OnPath(w, a) && OnPath(w, b) && a != LoadDiscovery && b != LoadDiscovery && Before(w, a) == Before(w, b)
    ensures a == b
  {
  }

  /** Without failures the attempt gets to every node on the path. */
  lemma {:induction false} Reach(w: World, n: NodeName) returns (es: seq<Event>)
    requires OnPath(w, n)
    ensures ValidRun(w, es) && Spared(w, es) && Run(w, es).node == n
    decreases Rank(n)
  {
    if n == LoadDiscovery {
      es := [];
    } else {
      var p := Before(w, n);
      BeforeOnPath(w, n);
      var front := Reach(w, p);
      es := front + [Commit];
      assert es[..|es| - 1] == front;
      RunKeepsInv(w, front);
      RunKeepsInv(w, es);
      LastCommit(w, front, es);
      PredecessorDetermines(w, Run(w, es).node, n);
    }
  }

  lemma BeforeOnPath(w: World, n: NodeName)
    requires OnPath(w, n) && n != LoadDiscovery
    ensures OnPath(w, Before(w, n)) && Before(w, n) != End
  {
  }

  lemma LastCommit(w: World, front: seq<Event>, es: seq<Event>)
    requires es == front + [Commit] && ValidRun(w, front) && ValidRun(w, es)
    ensures Run(w, es).node != LoadDiscovery && Before(w, Run(w, es).node) == Run(w, front).node
  {
    assert es[..|es| - 1] == front;
    var x := Run(w, front);
    RunKeepsInv(w, front);
    CommitWrites(w, x);
    var lost := Next(w, x, Commit).lost;
    if Rank(x.node) <= Rank(CompareEvidence) {
      SameUntilCompared(w, x.node, x.lost);
      SameUntilCompared(w, x.node, lost);
    }
    PathAdvances(w, x.node, lost);
  }

  lemma RankBounded(n: NodeName)
    ensures Rank(n) <= Rank(End)
  {
  }

  ghost predicate AllCommits(es: seq<Event>) {
    forall i | 0 <= i < |es| :: es[i] == Commit
  }

  /** One more commit, as a run. */
  lemma OneMore(w: World, es: seq<Event>)
    requires ValidRun(w, es) && Run(w, es).node != End
    ensures ValidRun(w, es + [Commit]) && Rank(Run(w, es + [Commit]).node) > Rank(Run(w, es).node)
  {
    assert (es + [Commit])[..|es|] == es;
    SuccessorsAdvanceOrStay(w, Run(w, es));
  }

  /** An interrupted job can always be finished by attempts that do not fail. */
  lemma {:induction false} Finish(w: World, es: seq<Event>) returns (rest: seq<Event>)
    requires ValidRun(w, es)
    ensures ValidRun(w, es + rest) && Run(w, es + rest).node == End
    ensures AllCommits(rest)
    decreases Rank(End) - Rank(Run(w, es).node)
  {
    if Run(w, es).node == End {
      rest := [];
      assert es + rest == es;
    } else {
      OneMore(w, es);
      RankBounded(Run(w, es + [Commit]).node);
      var more := Finish(w, es + [Commit]);
      rest := [Commit] + more;
      assert es + rest == es + [Commit] + more;
    }
  }

  lemma CutShort(w: World, es: seq<Event>, texts: Texts)
    requires ValidRun(w, es) && Run(w, es).node == CompareEvidence && Genuine(w, texts)
    ensures ValidRun(w, es + [Interrupt(texts), Commit])
    ensures Run(w, es + [Interrupt(texts), Commit]).lost == LostIn(w, Fetched(w), texts)
    ensures Rank(Run(w, es + [Interrupt(texts), Commit]).node) > Rank(CompareEvidence)
  {
    var cut, cutShort := es + [Interrupt(texts)], es + [Interrupt(texts), Commit];
    assert cut[..|es|] == es && cut[|es|] == Interrupt(texts);
    assert ValidRun(w, cut) && Run(w, cut) == Run(w, es).(texts := texts);
    OneMore(w, cut);
    assert cut + [Commit] == cutShort && cutShort[..|cutShort| - 1] == cut;
    RunKeepsInv(w, cut);
    LossesAreReadable(w, Run(w, cut));
  }

  /** A fetched page whose text the comparison would read. */
  ghost predicate HasText(w: World, i: nat) {
    i < |Found(w)| && Readable(Fetched(w)[i], PageText(w, Found(w)[i]))
  }

  function EntriesOf(job: nat, cs: seq<Candidate>, some: set<nat>): set<(nat, string)> {
    set i | i in some && i < |cs| :: (job, cs[i].key)
  }

  lemma OwnEntry(job: nat, cs: seq<Candidate>, some: set<nat>, i: nat)
    requires DistinctKeys(cs) && i < |cs|
    ensures (job, cs[i].key) in EntriesOf(job, cs, some) <==> i in some
  {
  }

  /** The table as it stands after fetching, without these candidates' texts. */
  function TableWithout(w: World, lost: set<nat>): Texts {
    PutTexts(w, Found(w), map[]) - EntriesOf(w.job, Found(w), lost)
  }

  lemma EntryWithout(w: World, cs: seq<Candidate>, lost: set<nat>, i: nat)
    requires DistinctKeys(cs) && i < |cs|
    ensures TextOf(PutTexts(w, cs, map[]) - EntriesOf(w.job, cs, lost), w.job, cs[i].key)
            == if i in lost then None else PageText(w, cs[i])
  {
    PutTextsGives(w, cs, map[], i);
    OwnEntry(w.job, cs, lost, i);
  }

  lemma LosesExactly(w: World, lost: set<nat>)
    requires forall i | i in lost :: HasText(w, i)
    ensures Genuine(w, TableWithout(w, lost)) && LostIn(w, Fetched(w), TableWithout(w, lost)) == lost
  {
    var texts := TableWithout(w, lost);
    FetchedKeys(w);
    forall i: nat | i < |Found(w)|
      ensures TextOf(texts, w.job, Found(w)[i].key) == if i in lost then None else PageText(w, Found(w)[i])
    {
      EntryWithout(w, Found(w), lost, i);
    }
    forall i ensures i in LostIn(w, Fetched(w), texts) <==> i in lost {
      if i in lost { assert HasText(w, i); }
    }
  }

  /** Any set of texts can be lost: some run of the job loses exactly those. */
  lemma AnyLossHappens(w: World, lost: set<nat>) returns (es: seq<Event>)
    requires Examined(w) && forall i | i in lost :: HasText(w, i)
    ensures ValidRun(w, es) && Run(w, es).node == End && Run(w, es).lost == lost
    ensures Run(w, es).st == AtWith(w, End, lost)
  {
    var texts := TableWithout(w, lost);
    LosesExactly(w, lost);
    var before := Reach(w, CompareEvidence);
    var cut := before + [Interrupt(texts), Commit];
    CutShort(w, before, texts);
    var rest := Finish(w, cut);
    es := cut + rest;
    LossIsFinal(w, cut, rest);
    RunKeepsInv(w, es);
  }

  /** What finished runs of a job can end in, exactly: the closed form for any set of readable texts, and nothing
      else. */
  lemma FinalStatesIff(w: World, st: State)
    requires Examined(w)
    ensures (exists es :: ValidRun(w, es) && Run(w, es).node == End && Run(w, es).st == st)
            <==> exists lost :: (forall i | i in lost :: HasText(w, i)) && st == AtWith(w, End, lost)
  {
    if es :| ValidRun(w, es) && Run(w, es).node == End && Run(w, es).st == st {
      RunKeepsInv(w, es);
      assert forall i | i in Run(w, es).lost :: HasText(w, i);
    }
    if lost :| (forall i | i in lost :: HasText(w, i)) && st == AtWith(w, End, lost) {
      var es := AnyLossHappens(w, lost);
    }
  }

  predicate SameOutcomes(a: State, b: State) {
    && a.outcome == b.outcome
    && |a.candidates| == |b.candidates|
    && forall i | 0 <= i < |a.candidates| :: a.candidates[i].outcome == b.candidates[i].outcome
  }

  /** However its attempts fail, the job comes to the same outcomes. */
  ghost predicate ResumeIsSafe(w: World) {
    forall es | ValidRun(w, es) && Run(w, es).node == End :: SameOutcomes(Run(w, es).st, At(w, End))
  }

  /** Nothing was settled: no page contradicts its candidate, and none corroborates one on both claims. */
  ghost predicate NothingSettled(w: World) {
    forall i | 0 <= i < |Found(w)| :: !PageContradicts(w, i) && !PageCorroborates(w, i)
  }

  /** Losing every text that was there. */
  function AllTexts(w: World): (all: set<nat>)
    ensures forall i :: i in all <==> HasText(w, i)
  {
    set i | 0 <= i < |Found(w)| && Readable(Fetched(w)[i], PageText(w, Found(w)[i]))
  }

  /** Resuming is harmless for exactly the jobs that have nothing to lose: no page to examine, or official pages that
      settle nothing. Both can be read off the pages and the model's replies before anything runs. */
  lemma ResumeSafeIff(w: World)
    ensures ResumeIsSafe(w) <==> !Examined(w) || NothingSettled(w)
  {
    if Examined(w) && ResumeIsSafe(w) {
      var es := AnyLossHappens(w, AllTexts(w));
      assert SameOutcomes(Run(w, es).st, At(w, End));
      FinalWith(w, AllTexts(w));
      FinalCandidates(w);
      forall i | 0 <= i < |Found(w)| ensures !PageContradicts(w, i) && !PageCorroborates(w, i) {
        SettledHasText(w, i);
        JudgedOutcome(w, i);
        OutcomeWith(w, AllTexts(w), i);
      }
    }
    if !Examined(w) || NothingSettled(w) {
      forall es | ValidRun(w, es) && Run(w, es).node == End ensures SameOutcomes(Run(w, es).st, At(w, End)) {
        UndecidedIsSame(w, es);
      }
    }
  }

  lemma SettledHasText(w: World, i: nat)
    requires i < |Found(w)|
    ensures PageContradicts(w, i) || PageCorroborates(w, i) ==> i in AllTexts(w)
  {
  }

  lemma UndecidedIsSame(w: World, es: seq<Event>)
    requires ValidRun(w, es) && Run(w, es).node == End && (!Examined(w) || NothingSettled(w))
    ensures SameOutcomes(Run(w, es).st, At(w, End))
  {
    var x := Run(w, es);
    ResumeRefines(w, es);
    RunKeepsInv(w, es);
    if Examined(w) {
      FinalWith(w, x.lost);
      FinalCandidates(w);
      forall i | 0 <= i < |Found(w)| ensures At(w, End).candidates[i].outcome == Some(MoreEvidenceRequired) {
        JudgedOutcome(w, i);
      }
      AllAskForMore(x.st.candidates);
      AllAskForMore(At(w, End).candidates);
    }
  }

  /** A review can disappear into a rejection: some run of the job ends rejected exactly when the page is no scholarship
      or some candidate is contradicted, whether or not another needs review. */
  lemma RejectionReachableIff(w: World)
    ensures (exists es :: ValidRun(w, es) && Run(w, es).node == End && Run(w, es).st.outcome == Some(RejectRecommended))
            <==> w.pageUsable && (w.classification == Some(NotAScholarship) || SomeContradicted(w))
  {
    if es :| ValidRun(w, es) && Run(w, es).node == End && Run(w, es).st.outcome == Some(RejectRecommended) {
      OutcomeOfRun(w, es);
    }
    if Examined(w) && SomeContradicted(w) {
      var es := HideReviews(w);
    } else if w.pageUsable && w.classification == Some(NotAScholarship) {
      var es := Reach(w, End);
      OutcomeOfRun(w, es);
    }
  }

  /** The texts that call for review. */
  ghost function ReviewTexts(w: World): (some: set<nat>)
    ensures forall i :: i in some <==> HasText(w, i) && NeedsReview(w, i)
  {
    set i | 0 <= i < |Found(w)| && HasText(w, i) && NeedsReview(w, i)
  }

  lemma ReviewsHidden(w: World)
    requires SomeContradicted(w)
    ensures SomeKeptContradicted(w, ReviewTexts(w)) && !SomeKeptReview(w, ReviewTexts(w))
  {
    forall i | 0 <= i < |Found(w)| ensures NeedsReview(w, i) ==> i in ReviewTexts(w) { ReviewHasText(w, i); }
    var i :| 0 <= i < |Found(w)| && PageContradicts(w, i);
    ContradictedNeedsNoReview(w, i);
    assert i !in ReviewTexts(w) && PageContradicts(w, i);
  }

  lemma ReviewHasText(w: World, i: nat)
    requires i < |Found(w)|
    ensures NeedsReview(w, i) ==> HasText(w, i)
  {
    SettledHasText(w, i);
  }

  lemma ContradictedNeedsNoReview(w: World, i: nat)
    requires i < |Found(w)| && PageContradicts(w, i)
    ensures !NeedsReview(w, i)
  {
    JudgedOutcome(w, i);
  }

  /** The run that loses exactly those. */
  lemma HideReviews(w: World) returns (es: seq<Event>)
    requires Examined(w) && SomeContradicted(w)
    ensures ValidRun(w, es) && Run(w, es).node == End && Run(w, es).st.outcome == Some(RejectRecommended)
  {
    es := AnyLossHappens(w, ReviewTexts(w));
    OutcomeOfRun(w, es);
    ReviewsHidden(w);
  }
}
