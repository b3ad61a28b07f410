/** The notes a finished run leaves, line by line. */
module RunNotes {
  import opened Wrappers
  import opened Candidates
  import opened Dedupe
  import opened Nodes
  import opened Graph
  import opened Resume

  function StartNotes(w: World): seq<Note> {
    if w.classification != Some(ListPage) then [OneCandidate]
    else if w.split.SplitInto? && Starting(w) != [] then [SplitCount(|Starting(w)|)] else []
  }

  function DropNotes(w: World): seq<Note> {
    var dropped := |Starting(w)| - |Deduped(Starting(w))|;
    if dropped > 0 then [DuplicatesDropped(dropped)] else []
  }

  function ClassNote(w: World): Note {
    if w.classification.Some? then ClassifiedAs(w.classification.value) else FellBackToIndividual
  }

  /** The last line of a run's notes. */
  function LastNote(w: World, outcome: Outcome): Note {
    if !w.pageUsable then PageNotRetrieved
    else if w.classification == Some(NotAScholarship) then DecidedByPageType
    else DecidedOver(outcome, |Found(w)|)
  }

  /** The notes before the decision, line by line. */
  function EarlyNotes(w: World): seq<Note> {
    [Loaded, SourceFetched(w.pageUsable)]
    + (if !w.pageUsable then [] else [ClassNote(w)])
    + (if !Examined(w) then [] else StartNotes(w) + DropNotes(w))
  }

  lemma LoadNotes(w: World, lost: set<nat>)
    ensures AtWith(w, FetchSource, lost).notes == [Loaded]
  {
    AtStart(w, lost);
    AtStep(w, FetchSource, lost);
    assert [] + [Loaded] == [Loaded];
  }

  lemma FetchNotes(w: World, st: State, lost: set<nat>)
    ensures Advance(w, FetchSource, st, lost).notes == st.notes + [SourceFetched(w.pageUsable)]
  {
  }

  lemma FirstNotes(w: World, lost: set<nat>)
    ensures AtWith(w, RouteNode(w), lost).notes == [Loaded, SourceFetched(w.pageUsable)]
  {
    LoadNotes(w, lost);
    AtStep(w, RouteNode(w), lost);
    FetchNotes(w, AtWith(w, FetchSource, lost), lost);
  }

  /** What follows the fetch of the source page. */
  function RouteNode(w: World): NodeName {
    if w.pageUsable then ClassifyPage else Decide
  }

  lemma ClassNotes(w: World, lost: set<nat>)
    requires w.pageUsable
    ensures AtWith(w, AfterClass(w), lost).notes == [Loaded, SourceFetched(true), ClassNote(w)]
  {
    FirstNotes(w, lost);
    AtStep(w, AfterClass(w), lost);
  }

  function AfterClass(w: World): NodeName {
    if w.classification == Some(NotAScholarship) then Decide
    else if w.classification == Some(ListPage) then SplitList
    else SingleOne
  }

  lemma StartStageNotes(w: World, st: State, lost: set<nat>)
    requires Examined(w)
    ensures Advance(w, AfterClass(w), st, lost).notes == st.notes + StartNotes(w)
  {
  }

  lemma StartingNotes(w: World, lost: set<nat>)
    requires Examined(w)
    ensures AtWith(w, DedupeAll, lost).notes == [Loaded, SourceFetched(true), ClassNote(w)] + StartNotes(w)
  {
    ClassNotes(w, lost);
    AtStep(w, DedupeAll, lost);
    StartStageNotes(w, AtWith(w, AfterClass(w), lost), lost);
  }

  lemma DedupeStageNotes(w: World, st: State, lost: set<nat>)
    requires Holds(st, Starting(w))
    ensures Advance(w, DedupeAll, st, lost).notes == st.notes + DropNotes(w)
  {
    DedupedNoLonger(Starting(w));
  }

  lemma EarlyNotesAre(w: World)
    requires Examined(w)
    ensures EarlyNotes(w) == [Loaded, SourceFetched(true), ClassNote(w)] + StartNotes(w) + DropNotes(w)
  {
  }

  lemma DedupedNotes(w: World, lost: set<nat>)
    ensures AtWith(w, ExtractFacts, lost).notes == AtWith(w, DedupeAll, lost).notes + DropNotes(w)
  {
    AtDedupe(w, lost);
    AtStep(w, ExtractFacts, lost);
    DedupeStageNotes(w, AtWith(w, DedupeAll, lost), lost);
  }

  lemma DedupeNotes(w: World, lost: set<nat>)
    requires Examined(w)
    ensures AtWith(w, ExtractFacts, lost).notes == EarlyNotes(w)
  {
    StartingNotes(w, lost);
    DedupedNotes(w, lost);
    EarlyNotesAre(w);
  }

  lemma {:induction false} KeysNoMore(cs: seq<Candidate>)
    ensures |FirstKeys(cs)| <= |cs|
  {
    if cs != [] { KeysNoMore(cs[..|cs| - 1]); }
  }

  lemma DedupedNoLonger(cs: seq<Candidate>)
    ensures |Deduped(cs)| <= |cs|
  {
    KeysNoMore(cs);
  }

  lemma QuietExtract(w: World, lost: set<nat>)
    ensures AtWith(w, FindOfficial, lost).notes == AtWith(w, ExtractFacts, lost).notes
  {
    AtStep(w, FindOfficial, lost);
    ExtractStage(w, AtWith(w, ExtractFacts, lost), lost);
  }

  lemma QuietFind(w: World, lost: set<nat>)
    ensures AtWith(w, FetchOfficial, lost).notes == AtWith(w, FindOfficial, lost).notes
  {
    AtStep(w, FetchOfficial, lost);
    FindStage(w, AtWith(w, FindOfficial, lost), lost);
  }

  lemma QuietFetch(w: World, lost: set<nat>)
    ensures AtWith(w, CompareEvidence, lost).notes == AtWith(w, FetchOfficial, lost).notes
  {
    AtStep(w, CompareEvidence, lost);
    FetchStage(w, AtWith(w, FetchOfficial, lost), lost);
  }

  /** From fact extraction to the comparison nothing is noted. */
  lemma QuietStages(w: World, lost: set<nat>)
    requires Examined(w)
    ensures AtWith(w, CompareEvidence, lost).notes == EarlyNotes(w)
  {
    DedupeNotes(w, lost);
    QuietExtract(w, lost);
    QuietFind(w, lost);
    QuietFetch(w, lost);
  }

  lemma ShortNotes(w: World, lost: set<nat>)
    requires !Examined(w)
    ensures AtWith(w, End, lost).outcome.Some?
    ensures AtWith(w, End, lost).notes == EarlyNotes(w) + [LastNote(w, AtWith(w, End, lost).outcome.value)]
  {
    if w.pageUsable { ClassNotes(w, lost); } else { FirstNotes(w, lost); }
    AtFacts(w, Decide, lost);
    AtEnd(w, lost);
  }

  /** The notes of a finished run, line by line: one for each thing that was done, once and in order, however often the
      attempts failed. Against the uninterrupted run only the decision's own line can differ, and only in the outcome
      it names. */
  lemma NotesOnce(w: World, es: seq<Event>)
    requires ValidRun(w, es) && Run(w, es).node == End
    ensures var st := Run(w, es).st;
            st.outcome.Some? && st.notes == EarlyNotes(w) + [LastNote(w, st.outcome.value)]
  {
    RunKeepsInv(w, es);
    var lost := Run(w, es).lost;
    if Examined(w) {
      FinalWith(w, lost);
      SameUntilCompared(w, CompareEvidence, lost);
      QuietStages(w, lost);
    } else {
      ShortNotes(w, lost);
    }
  }
}
