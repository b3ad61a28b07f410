/** The workflow graph: its control flow, what one whole run computes, and what a reject can rest on. */
module Graph {
  import opened Wrappers
  import opened Candidates
  import opened Comparison
  import opened Dedupe
  import opened Nodes
  import opened Policies
  import Extraction
  import FactMatching
  import Normalization

  datatype NodeName =
    | LoadDiscovery | FetchSource | ClassifyPage | SplitList | SingleOne | DedupeAll | ExtractFacts
    | FindOfficial | FetchOfficial | CompareEvidence | ExtractEligibility | Decide | Submit | End

  datatype Note =
    | Loaded
    | SourceFetched(usable: bool)
    | ClassifiedAs(pageType: PageType)
    | FellBackToIndividual
    | OneCandidate
    | SplitCount(n: nat)
    | DuplicatesDropped(n: nat)
    | PageNotRetrieved
    | DecidedByPageType
    | DecidedOver(outcome: Outcome, n: nat)

  /** The checkpointed state. */
  datatype State = State(
    usable: Option<bool>,
    pageType: Option<PageType>,
    candidates: seq<Candidate>,
    notes: seq<Note>,
    outcome: Option<Outcome>)

  /** Notes are appended, never replaced. */
  function MergeNotes(existing: seq<Note>, incoming: seq<Note>): seq<Note> {
    existing + incoming
  }

  function Noted(st: State, incoming: seq<Note>): State {
    st.(notes := MergeNotes(st.notes, incoming))
  }

  const INITIAL: State := State(None, None, [], [], None)

  function RouteAfterFetch(st: State): NodeName {
    if st.usable == Some(false) then Decide else ClassifyPage
  }

  function RouteAfterClassification(st: State): NodeName {
    if st.pageType == Some(NotAScholarship) then Decide
    else if st.pageType == Some(ListPage) then SplitList else SingleOne
  }

  function Successor(n: NodeName, st: State): NodeName {
    match n
    case LoadDiscovery => FetchSource
    case FetchSource => RouteAfterFetch(st)
    case ClassifyPage => RouteAfterClassification(st)
    case SplitList => DedupeAll
    case SingleOne => DedupeAll
    case DedupeAll => ExtractFacts
    case ExtractFacts => FindOfficial
    case FindOfficial => FetchOfficial
    case FetchOfficial => CompareEvidence
    case CompareEvidence => ExtractEligibility
    case ExtractEligibility => Decide
    case Decide => Submit
    case Submit => End
    case End => End
  }

  function Rank(n: NodeName): nat {
    match n
    case LoadDiscovery => 0
    case FetchSource => 1
    case ClassifyPage => 2
    case SplitList => 3
    case SingleOne => 3
    case DedupeAll => 4
    case ExtractFacts => 5
    case FindOfficial => 6
    case FetchOfficial => 7
    case CompareEvidence => 8
    case ExtractEligibility => 9
    case Decide => 10
    case Submit => 11
    case End => 12
  }

  /** The graph has no cycles: no node can come round again. */
  lemma SuccessorsAdvance(n: NodeName, st: State)
    requires n != End
    ensures Rank(Successor(n, st)) > Rank(n)
  {
  }

  function TypeOf(w: World): PageType {
    if w.classification.Some? then w.classification.value else Individual
  }

  function DecisionNote(st: State): Note {
    if st.usable == Some(false) then PageNotRetrieved
    else if OutcomeForPageType(st.pageType).Some? then DecidedByPageType
    else DecidedOver(Verdicts(st.usable, st.pageType, st.candidates).1, |st.candidates|)
  }

  function Decided(st: State): State {
    var (cs, overall) := Verdicts(st.usable, st.pageType, st.candidates);
    Noted(st.(candidates := cs, outcome := Some(overall)), [DecisionNote(st)])
  }

  /** What a node commits, given the checkpointed state and the uncheckpointed table of page texts. In shadow mode
      the last node leaves the state as it is. */
  function ExecNode(w: World, n: NodeName, st: State, texts: Texts): (State, Texts) {
    match n
    case LoadDiscovery => (Noted(st, [Loaded]), texts)
    case FetchSource => (Noted(st.(usable := Some(w.pageUsable)), [SourceFetched(w.pageUsable)]), texts)
    case ClassifyPage =>
      (Noted(st.(pageType := Some(TypeOf(w))),
             [if w.classification.Some? then ClassifiedAs(TypeOf(w)) else FellBackToIndividual]), texts)
    case SplitList =>
      var cs := SplitCandidates(w);
      (Noted(st.(candidates := cs), if w.split.SplitInto? && cs != [] then [SplitCount(|cs|)] else []), texts)
    case SingleOne => (Noted(st.(candidates := SingleCandidate(w)), [OneCandidate]), texts)
    case DedupeAll =>
      var out := Deduped(st.candidates);
      (Noted(st.(candidates := out),
             if |out| < |st.candidates| then [DuplicatesDropped(|st.candidates| - |out|)] else []), texts)
    case ExtractFacts => (st.(candidates := ExtractAll(w, st.candidates)), texts)
    case FindOfficial => (st.(candidates := FindAll(w, st.candidates)), texts)
    case FetchOfficial => (st.(candidates := FetchAll(w, st.candidates)), PutTexts(w, st.candidates, texts))
    case CompareEvidence =>
      var r := ComparePass(w, st.candidates, texts);
      (st.(candidates := r.0), r.1)
    case ExtractEligibility => (st.(candidates := EligibilityAll(w, st.candidates)), texts)
    case Decide => (Decided(st), texts)
    case Submit => (st, texts)
    case End => (st, texts)
  }

  // ---- The uninterrupted run, in closed form ----

  function Starting(w: World): seq<Candidate> {
    if w.classification == Some(ListPage) then SplitCandidates(w) else SingleCandidate(w)
  }

  /** The candidates just before their official pages are fetched. */
  function Found(w: World): seq<Candidate> {
    FindAll(w, ExtractAll(w, Deduped(Starting(w))))
  }

  function Fetched(w: World): seq<Candidate> {
    FetchAll(w, Found(w))
  }

  /** Every candidate compared with the text of its own official page. */
  function ComparedAll(w: World): (r: seq<Candidate>)
    ensures |r| == |Found(w)|
    ensures forall i | 0 <= i < |r| :: r[i] == CompareOne(w, Fetched(w)[i], i, PageText(w, Found(w)[i]))
  {
    seq(|Found(w)|, i requires 0 <= i < |Found(w)| => CompareOne(w, Fetched(w)[i], i, PageText(w, Found(w)[i])))
  }

  /** Which node precedes `n` on this world's path. */
  function Before(w: World, n: NodeName): NodeName
    requires n != LoadDiscovery
    ensures Rank(Before(w, n)) < Rank(n)
  {
    match n
    case FetchSource => LoadDiscovery
    case ClassifyPage => FetchSource
    case SplitList => ClassifyPage
    case SingleOne => ClassifyPage
    case DedupeAll => if w.classification == Some(ListPage) then SplitList else SingleOne
    case ExtractFacts => DedupeAll
    case FindOfficial => ExtractFacts
    case FetchOfficial => FindOfficial
    case CompareEvidence => FetchOfficial
    case ExtractEligibility => CompareEvidence
    case Decide =>
      if !w.pageUsable then FetchSource
      else if w.classification == Some(NotAScholarship) then ClassifyPage
      else ExtractEligibility
    case Submit => Decide
    case End => Submit
  }

  /** The comparison with these candidates' texts missing: they stay as they were fetched. */
  function Partly(w: World, lost: set<nat>): (r: seq<Candidate>)
    ensures |r| == |Found(w)|
    ensures forall i | 0 <= i < |r| :: r[i] == if i in lost then Fetched(w)[i] else ComparedAll(w)[i]
  {
    seq(|Found(w)|, i requires 0 <= i < |Found(w)| => if i in lost then Fetched(w)[i] else ComparedAll(w)[i])
  }

  function Advance(w: World, n: NodeName, st: State, lost: set<nat>): State {
    if n == CompareEvidence then st.(candidates := Partly(w, lost)) else ExecNode(w, n, st, map[]).0
  }

  /** The nodes that commit before `n`, in order. */
  function PathTo(w: World, n: NodeName): seq<NodeName>
    decreases Rank(n), w.job
  {
    if n == LoadDiscovery then [] else PathTo(w, Before(w, n)) + [Before(w, n)]
  }

  /** The checkpoint a run of this world holds when `n` is next, if these texts were missing at the comparison. */
  function AtWith(w: World, n: NodeName, lost: set<nat>): State
    decreases Rank(n), w.job
  {
    if n == LoadDiscovery then INITIAL else Advance(w, Before(w, n), AtWith(w, Before(w, n), lost), lost)
  }

  /** The checkpoint of an uninterrupted run. */
  function At(w: World, n: NodeName): State {
    AtWith(w, n, {})
  }

  lemma AtStart(w: World, lost: set<nat>)
    ensures AtWith(w, LoadDiscovery, lost) == INITIAL
  {
  }

  lemma AtStep(w: World, n: NodeName, lost: set<nat>)
    requires n != LoadDiscovery
    ensures AtWith(w, n, lost) == Advance(w, Before(w, n), AtWith(w, Before(w, n), lost), lost)
  {
  }

  /** The page was read and describes opportunities, so candidates are looked at. */
  predicate Examined(w: World) {
    w.pageUsable && w.classification != Some(NotAScholarship)
  }

  predicate OnPath(w: World, n: NodeName) {
    match n
    case LoadDiscovery => true
    case FetchSource => true
    case ClassifyPage => w.pageUsable
    case SplitList => w.pageUsable && w.classification == Some(ListPage)
    case SingleOne => w.pageUsable && w.classification != Some(ListPage) && w.classification != Some(NotAScholarship)
    case Decide => true
    case Submit => true
    case End => true
    case _ => w.pageUsable && w.classification != Some(NotAScholarship)
  }

  /** What the checkpoint holds along the way, as far as routing and later nodes look at it. */
  lemma {:induction false} AtFacts(w: World, n: NodeName, lost: set<nat>)
    requires OnPath(w, n)
    ensures AtWith(w, n, lost).usable == if Rank(n) >= 2 then Some(w.pageUsable) else None
    ensures w.pageUsable ==> AtWith(w, n, lost).pageType == if Rank(n) >= 3 then Some(TypeOf(w)) else None
    ensures !w.pageUsable ==> AtWith(w, n, lost).pageType == None
    ensures Rank(n) <= 3 ==> AtWith(w, n, lost).candidates == []
    decreases Rank(n)
  {
    if n == LoadDiscovery {
      AtStart(w, lost);
    } else {
      AtStep(w, n, lost);
      AtFacts(w, Before(w, n), lost);
      FactsStep(w, n, AtWith(w, Before(w, n), lost), lost);
    }
  }

  lemma FactsStep(w: World, n: NodeName, st: State, lost: set<nat>)
    requires OnPath(w, n) && n != LoadDiscovery
    ensures var p, next := Before(w, n), Advance(w, Before(w, n), st, lost);
            && next.usable == (if p == FetchSource then Some(w.pageUsable) else st.usable)
            && next.pageType == (if p == ClassifyPage then Some(TypeOf(w)) else st.pageType)
            && (Rank(p) <= 2 ==> next.candidates == st.candidates)
            && OnPath(w, p)
  {
  }

  /** Up to the comparison nothing can have been lost. */
  lemma {:induction false} SameUntilCompared(w: World, n: NodeName, lost: set<nat>)
    requires Rank(n) <= Rank(CompareEvidence)
    ensures AtWith(w, n, lost) == At(w, n)
    decreases Rank(n)
  {
    if n == LoadDiscovery {
      AtStart(w, lost);
      AtStart(w, {});
    } else {
      AtStep(w, n, lost);
      AtStep(w, n, {});
      SameUntilCompared(w, Before(w, n), lost);
    }
  }

  /** The checkpoint holds these candidates. Said of the whole state, which is how the lemmas below use it. */
  predicate Holds(st: State, cs: seq<Candidate>) {
    st == st.(candidates := cs)
  }

  lemma SplitStage(w: World, st: State, lost: set<nat>)
    ensures Holds(Advance(w, Before(w, DedupeAll), st, lost), Starting(w))
  {
  }

  lemma DedupeStage(w: World, st: State, lost: set<nat>)
    ensures Holds(Advance(w, DedupeAll, st, lost), Deduped(st.candidates))
  {
  }

  lemma ExtractStage(w: World, st: State, lost: set<nat>)
    ensures Advance(w, ExtractFacts, st, lost) == st.(candidates := ExtractAll(w, st.candidates))
  {
  }

  lemma FindStage(w: World, st: State, lost: set<nat>)
    ensures Advance(w, FindOfficial, st, lost) == st.(candidates := FindAll(w, st.candidates))
  {
  }

  lemma FetchStage(w: World, st: State, lost: set<nat>)
    ensures Advance(w, FetchOfficial, st, lost) == st.(candidates := FetchAll(w, st.candidates))
  {
  }

  lemma CompareStage(w: World, st: State, lost: set<nat>)
    ensures Advance(w, CompareEvidence, st, lost) == st.(candidates := Partly(w, lost))
  {
  }

  lemma EligibilityStage(w: World, st: State, lost: set<nat>)
    ensures Advance(w, ExtractEligibility, st, lost) == st.(candidates := EligibilityAll(w, st.candidates))
  {
  }

  lemma AtDedupe(w: World, lost: set<nat>)
    ensures Holds(AtWith(w, DedupeAll, lost), Starting(w))
  {
    AtStep(w, DedupeAll, lost);
    SplitStage(w, AtWith(w, Before(w, DedupeAll), lost), lost);
  }

  lemma AtExtract(w: World, lost: set<nat>)
    ensures Holds(AtWith(w, ExtractFacts, lost), Deduped(Starting(w)))
  {
    AtDedupe(w, lost);
    AtStep(w, ExtractFacts, lost);
    DedupeStage(w, AtWith(w, DedupeAll, lost), lost);
  }

  lemma AtExtracted(w: World, lost: set<nat>)
    ensures Holds(AtWith(w, FindOfficial, lost), ExtractAll(w, Deduped(Starting(w))))
  {
    AtExtract(w, lost);
    AtStep(w, FindOfficial, lost);
    ExtractStage(w, AtWith(w, ExtractFacts, lost), lost);
  }

  lemma AtFound(w: World, lost: set<nat>)
    ensures Holds(AtWith(w, FetchOfficial, lost), Found(w))
  {
    AtExtracted(w, lost);
    AtStep(w, FetchOfficial, lost);
    FindStage(w, AtWith(w, FindOfficial, lost), lost);
  }

  lemma AtFetched(w: World, lost: set<nat>)
    ensures Holds(AtWith(w, CompareEvidence, lost), Fetched(w))
  {
    AtFound(w, lost);
    AtStep(w, CompareEvidence, lost);
    FetchStage(w, AtWith(w, FetchOfficial, lost), lost);
  }

  lemma AtEligibility(w: World, lost: set<nat>)
    ensures AtWith(w, ExtractEligibility, lost) == AtWith(w, CompareEvidence, lost).(candidates := Partly(w, lost))
  {
    AtStep(w, ExtractEligibility, lost);
    CompareStage(w, AtWith(w, CompareEvidence, lost), lost);
  }

  /** The checkpoint at the decision: whatever was lost, only candidates differ. */
  lemma AtDecide(w: World, lost: set<nat>)
    requires Examined(w)
    ensures AtWith(w, Decide, lost) ==
            AtWith(w, CompareEvidence, lost).(candidates := EligibilityAll(w, Partly(w, lost)))
  {
    AtEligibility(w, lost);
    AtStep(w, Decide, lost);
    EligibilityStage(w, AtWith(w, ExtractEligibility, lost), lost);
  }

  lemma DecideStage(w: World, st: State, lost: set<nat>)
    ensures Advance(w, Decide, st, lost) == Decided(st)
  {
  }

  lemma SubmitStage(w: World, st: State, lost: set<nat>)
    ensures Advance(w, Submit, st, lost) == st
  {
  }

  lemma AtSubmit(w: World, lost: set<nat>)
    ensures AtWith(w, Submit, lost) == Decided(AtWith(w, Decide, lost))
  {
    AtStep(w, Submit, lost);
    DecideStage(w, AtWith(w, Decide, lost), lost);
  }

  lemma AtEnd(w: World, lost: set<nat>)
    ensures AtWith(w, End, lost) == Decided(AtWith(w, Decide, lost))
  {
    AtSubmit(w, lost);
    AtStep(w, End, lost);
    SubmitStage(w, AtWith(w, Submit, lost), lost);
  }

  /** The routing of a run never depends on what was lost. */
  lemma PathAdvances(w: World, n: NodeName, lost: set<nat>)
    requires OnPath(w, n) && n != End
    ensures var next := Successor(n, Advance(w, n, AtWith(w, n, lost), lost)); OnPath(w, next) && Before(w, next) == n
  {
    AtFacts(w, n, lost);
    RoutingStep(w, n, AtWith(w, n, lost), lost);
  }

  lemma RoutingStep(w: World, n: NodeName, st: State, lost: set<nat>)
    requires OnPath(w, n) && n != End
    requires st.usable == if Rank(n) >= 2 then Some(w.pageUsable) else None
    ensures var next := Successor(n, Advance(w, n, st, lost)); OnPath(w, next) && Before(w, next) == n
  {
  }

  // ---- Candidates that can reach the decision ----

  predicate Fresh(c: Candidate) {
    && !c.officialFetched && c.amountAgrees.None? && c.deadlineAgrees.None?
    && c.contradictions == [] && c.rules == [] && c.evidence == [] && c.outcome.None?
  }

  /** As the page was split: no verdict, no official URL, and the key that its title gives. */
  predicate Untouched(w: World, c: Candidate) {
    Fresh(c) && c.officialUrl.None? && c.key == KeyOf(w, c.title)
  }

  /** As the fetch finds it. */
  ghost predicate Ready(w: World, c: Candidate) {
    Fresh(c) && c.key == KeyOf(w, c.title) && NotSource(w, c)
  }

  lemma {:induction false} FromItemsFresh(w: World, items: seq<SplitItem>)
    ensures forall c | c in FromItems(w, items) :: Untouched(w, c)
  {
    if items != [] { FromItemsFresh(w, items[1..]); }
  }

  lemma StartingFresh(w: World)
    ensures forall c | c in Starting(w) :: Untouched(w, c)
  {
    match w.split {
      case SplitUnavailable =>
      case SplitInto(items) =>
        FromItemsFresh(w, if |items| > MAX_CANDIDATES_PER_PAGE then items[..MAX_CANDIDATES_PER_PAGE] else items);
    }
  }

  lemma ExtractKeeps(w: World, c: Candidate, i: nat)
    requires Untouched(w, c)
    ensures Untouched(w, ExtractOne(w, c, i)) && ExtractOne(w, c, i).key == c.key
  {
  }

  predicate OnlyOfficialChosen(before: Candidate, after: Candidate) {
    after == before.(officialUrl := after.officialUrl, reasons := after.reasons)
  }

  lemma FindKeeps(w: World, c: Candidate)
    requires c.officialUrl.None?
    ensures OnlyOfficialChosen(c, FindOne(w, c))
  {
    FindIs(w, c);
  }

  lemma FindReady(w: World, c: Candidate)
    requires Untouched(w, c)
    ensures Ready(w, FindOne(w, c)) && FindOne(w, c).key == c.key
  {
    FindKeeps(w, c);
    FindNeverPicksSource(w, c);
  }

  lemma FoundOne(w: World, i: nat)
    requires i < |Found(w)|
    ensures |Found(w)| == |Deduped(Starting(w))|
    ensures Ready(w, Found(w)[i]) && Found(w)[i].key == Deduped(Starting(w))[i].key
  {
    var unique := Deduped(Starting(w));
    DedupedFacts(Starting(w), unique);
    StartingFresh(w);
    assert unique[i] in unique;
    ExtractKeeps(w, unique[i], i);
    FindReady(w, ExtractAll(w, unique)[i]);
  }

  // ---- Where candidates come from ----

  /** What a run starts from. Only a page classified as a list is split, and then into the titled entries among its
      first fifty, in order. Every other page that is examined - one that could not be classified among them - is one
      candidate: the discovery itself. */
  lemma StartsFrom(w: World) returns (at: seq<nat>)
    requires w.pageUsable && w.classification != Some(NotAScholarship)
    ensures At(w, DedupeAll).candidates == Starting(w)
    ensures w.classification == Some(ListPage) && w.split.SplitInto? ==>
              Entries(w, if |w.split.items| > 50 then w.split.items[..50] else w.split.items,
                      At(w, DedupeAll).candidates, at)
    ensures w.classification != Some(ListPage) || w.split.SplitUnavailable? ==>
              && |At(w, DedupeAll).candidates| == 1
              && var c := At(w, DedupeAll).candidates[0];
                 && c.title == w.rawTitle && c.url == Some(w.sourceUrl) && c.excerpt == w.rawExcerpt
                 && c.discoveryId == Some(w.discoveryId)
  {
    AtDedupe(w, {});
    at := [];
    if w.classification == Some(ListPage) && w.split.SplitInto? {
      at := FromItemsIs(w, if |w.split.items| > 50 then w.split.items[..50] else w.split.items);
    }
  }

  /** Only duplicates are merged: no two candidates found are titled with the same words, and the words of every
      candidate started from are the words of one found. */
  lemma NoAwardTwice(w: World)
    ensures forall i, j | 0 <= i < j < |Found(w)| ::
              Normalization.Members(Normalization.Tokens(w.clean(Found(w)[i].title))) !=
              Normalization.Members(Normalization.Tokens(w.clean(Found(w)[j].title)))
    ensures forall c | c in Starting(w) :: exists i | 0 <= i < |Found(w)| ::
              Normalization.Members(Normalization.Tokens(w.clean(c.title))) ==
              Normalization.Members(Normalization.Tokens(w.clean(Found(w)[i].title)))
  {
    FoundFacts(w);
    forall i, j | 0 <= i < j < |Found(w)|
      ensures Normalization.Members(Normalization.Tokens(w.clean(Found(w)[i].title))) !=
              Normalization.Members(Normalization.Tokens(w.clean(Found(w)[j].title)))
    {
      KeyOfIff(w, Found(w)[i].title, Found(w)[j].title);
    }
    forall c | c in Starting(w)
      ensures exists i | 0 <= i < |Found(w)| ::
                Normalization.Members(Normalization.Tokens(w.clean(c.title))) ==
                Normalization.Members(Normalization.Tokens(w.clean(Found(w)[i].title)))
    {
      var i := FoundForKey(w, c);
      KeyOfIff(w, c.title, Found(w)[i].title);
    }
  }

  lemma FoundForKey(w: World, c: Candidate) returns (i: nat)
    requires c in Starting(w)
    ensures i < |Found(w)| && KeyOf(w, Found(w)[i].title) == KeyOf(w, c.title)
  {
    var unique := Deduped(Starting(w));
    DedupedFacts(Starting(w), unique);
    StartingFresh(w);
    var k :| 0 <= k < |Starting(w)| && Starting(w)[k] == c;
    assert HasKey(Starting(w), c.key);
    i :| 0 <= i < |unique| && unique[i].key == c.key;
    FoundOne(w, i);
  }

  /** Extraction reads a candidate's own title and excerpt, and nothing else about it changes. */
  lemma ExtractIs(w: World, c: Candidate, i: nat)
    ensures var d := ExtractOne(w, c, i);
            var text := if c.excerpt == "" then c.title else Titled(c.title, c.excerpt);
            && d == c.(fundingMentions := d.fundingMentions, deadlineMentions := d.deadlineMentions,
                       reasons := d.reasons)
            && d.fundingMentions == Extraction.FundingMentions(w.wordChar, text)
            && d.deadlineMentions == w.deadlines(text)
  {
  }

  /** A found candidate is the survivor it was, with the mentions of its own title and excerpt, and the official page
      its link or the search gives. */
  lemma FoundIs(w: World, i: nat)
    requires i < |Found(w)|
    ensures |Deduped(Starting(w))| == |Found(w)|
    ensures var c, d := Deduped(Starting(w))[i], Found(w)[i];
            && d == c.(fundingMentions := d.fundingMentions, deadlineMentions := d.deadlineMentions,
                       officialUrl := d.officialUrl, reasons := d.reasons)
            && FoundFor(w, ExtractOne(w, c, i), d)
    ensures var d := Found(w)[i];
            var text := if d.excerpt == "" then d.title else Titled(d.title, d.excerpt);
            d.fundingMentions == Extraction.FundingMentions(w.wordChar, text) && d.deadlineMentions == w.deadlines(text)
  {
    var unique := Deduped(Starting(w));
    DedupedFacts(Starting(w), unique);
    StartingFresh(w);
    assert unique[i] in unique;
    ExtractIs(w, unique[i], i);
    FindIs(w, ExtractOne(w, unique[i], i));
  }

  /** The survivors of deduplication as the fetch finds them: untouched by any verdict, keyed by title, all keys and
      titles different, and no official URL the source itself. */
  lemma FoundFacts(w: World)
    ensures DistinctKeys(Found(w))
    ensures forall i | 0 <= i < |Found(w)| :: Ready(w, Found(w)[i])
    ensures forall i, j | 0 <= i < j < |Found(w)| :: Found(w)[i].title != Found(w)[j].title
  {
    DedupedFacts(Starting(w), Deduped(Starting(w)));
    forall i | 0 <= i < |Found(w)|
      ensures Ready(w, Found(w)[i]) && Found(w)[i].key == Deduped(Starting(w))[i].key
    {
      FoundOne(w, i);
    }
    TitlesDistinct(Found(w), title => KeyOf(w, title));
  }

  lemma NoAgreementYet(evidence: seq<Evidence>)
    requires forall i | 0 <= i < |evidence| :: evidence[i].PageSeen?
    ensures !Covers(evidence, Funding) && !Covers(evidence, Deadline)
  {
  }

  /** The model flagged something on the official page. */
  predicate Flags(w: World, i: nat) {
    w.compare(i).CompareRead? && w.compare(i).contradictions != []
  }

  predicate HasRules(w: World, i: nat) {
    w.rules(i).RulesRead? && w.rules(i).rules != []
  }

  /** What the model's reply adds before the claims are settled: what it flags, and nothing else but a reason. */
  lemma ReplyOnlyFlags(w: World, c: Candidate, i: nat, text: string) returns (d: Candidate)
    requires Readable(c, Some(text)) && c.contradictions == []
    ensures d == c.(contradictions := d.contradictions, reasons := d.reasons)
    ensures d.contradictions != [] <==> Flags(w, i)
    ensures CompareOne(w, c, i, Some(text)) ==
            SettleAgreement(d, SettleFunding(w, c, i, text), SettleDeadline(w, c, i, text))
  {
    d := match w.compare(i)
      case CompareFailed => Because(c, ComparisonFailed)
      case CompareUnavailable => c
      case CompareRead(contradictions, _) => c.(contradictions := contradictions);
  }

  lemma FetchedIsNeutral(w: World, c: Candidate)
    requires Fresh(c)
    ensures var d := FetchOne(w, c);
            && !Covers(d.evidence, Funding) && !Covers(d.evidence, Deadline)
            && d.amountAgrees.None? && d.deadlineAgrees.None? && d.contradictions == [] && d.rules == []
            && (d.officialFetched ==> d.officialUrl.Some? && d.evidence != [])
  {
    NoAgreementYet(FetchOne(w, c).evidence);
  }

  /** The text was read and, on one claim, each side offers exactly one value, both can be read, and they differ - the
      model's located pair standing in only where the two pages' own values give no verdict. */
  ghost predicate TextContradicts(w: World, c: Candidate, i: nat, text: Option<string>) {
    Readable(c, text) && (FundingContradicted(w, c, i, text.value) || DeadlineContradicted(w, c, i, text.value))
  }

  /** The text was read and, on both claims, some reported value matches some value it states, the model's located pair
      standing in as above. */
  ghost predicate TextCorroborates(w: World, c: Candidate, i: nat, text: Option<string>) {
    Readable(c, text) && FundingCorroborated(w, c, i, text.value) && DeadlineCorroborated(w, c, i, text.value)
  }

  /** Whatever text the comparison is given, or none, the candidate leaves it with evidence and verdicts in step;
      a negative verdict is exactly a contradiction by that text, and two positive ones exactly its corroboration. */
  lemma ComparedIsCoupled(w: World, c: Candidate, i: nat, text: Option<string>)
    requires Fresh(c)
    ensures var d := CompareOne(w, FetchOne(w, c), i, text);
            && Coupled(d) && d.officialUrl == c.officialUrl && d.officialFetched == FetchOne(w, c).officialFetched
            && (d.amountAgrees == Some(false) || d.deadlineAgrees == Some(false) <==>
                TextContradicts(w, FetchOne(w, c), i, text))
            && (d.amountAgrees == Some(true) && d.deadlineAgrees == Some(true) <==>
                TextCorroborates(w, FetchOne(w, c), i, text))
            && d.rules == []
            && (Readable(FetchOne(w, c), text) ==>
                  && (d.contradictions != [] <==> Flags(w, i))
                  && (d.amountAgrees == Some(false) <==> FundingContradicted(w, FetchOne(w, c), i, text.value))
                  && (d.amountAgrees == Some(true) <==> FundingCorroborated(w, FetchOne(w, c), i, text.value)))
  {
    var d := FetchOne(w, c);
    FetchedIsNeutral(w, c);
    if Readable(d, text) {
      SettledClaims(w, d, i, text.value);
      var e := ReplyOnlyFlags(w, d, i, text.value);
      var funding, deadline := SettleFunding(w, d, i, text.value), SettleDeadline(w, d, i, text.value);
      SettledIsCovered(e, funding, deadline);
      assert SettleAgreement(e, funding, deadline).evidence != [];
    }
  }

  lemma EligibilityKeepsCoupled(w: World, c: Candidate, i: nat)
    requires Coupled(c)
    ensures var d := EligibilityOne(w, c, i);
            && Coupled(d) && d.amountAgrees == c.amountAgrees && d.deadlineAgrees == c.deadlineAgrees
            && d.contradictions == c.contradictions
            && d.officialUrl == c.officialUrl && d.officialFetched == c.officialFetched
            && (c.officialFetched && c.rules == [] ==> (d.rules != [] <==> HasRules(w, i)))
  {
  }

  /** The i-th candidate has an official page and it was read, with some text on it. */
  ghost predicate PageRead(w: World, i: nat, text: string)
    requires i < |Found(w)|
  {
    && Found(w)[i].officialUrl.Some? && w.official(Found(w)[i].officialUrl.value) == Some(text) && text != ""
  }

  /** The i-th candidate is contradicted by its own official page. */
  ghost predicate PageContradicts(w: World, i: nat)
    requires i < |Found(w)|
  {
    exists text | PageRead(w, i, text) ::
      FundingContradicted(w, Found(w)[i], i, text) || DeadlineContradicted(w, Found(w)[i], i, text)
  }

  /** The i-th candidate is corroborated on both claims by its own official page. */
  ghost predicate PageCorroborates(w: World, i: nat)
    requires i < |Found(w)|
  {
    exists text | PageRead(w, i, text) ::
      FundingCorroborated(w, Found(w)[i], i, text) && DeadlineCorroborated(w, Found(w)[i], i, text)
  }

  lemma ContradictedBy(w: World, i: nat, text: string)
    requires i < |Found(w)| && PageRead(w, i, text) && FundingContradicted(w, Found(w)[i], i, text)
    ensures PageContradicts(w, i)
  {
  }

  lemma CorroboratedBy(w: World, i: nat, text: string)
    requires i < |Found(w)| && PageRead(w, i, text)
    requires FundingCorroborated(w, Found(w)[i], i, text) && DeadlineCorroborated(w, Found(w)[i], i, text)
    ensures PageCorroborates(w, i)
  {
  }

  /** Fetching keeps what a candidate reports, and its page is readable exactly when it was read. */
  lemma PageIs(w: World, i: nat)
    requires i < |Found(w)|
    ensures var c, text := Fetched(w)[i], PageText(w, Found(w)[i]);
            && c.title == Found(w)[i].title && c.fundingMentions == Found(w)[i].fundingMentions
            && c.deadlineMentions == Found(w)[i].deadlineMentions && c.officialUrl == Found(w)[i].officialUrl
            && (c.officialFetched <==> c.officialUrl.Some? && w.official(c.officialUrl.value).Some?)
            && (forall t :: PageRead(w, i, t) <==> Readable(c, text) && text == Some(t))
            && (PageContradicts(w, i) <==> TextContradicts(w, c, i, text))
            && (PageCorroborates(w, i) <==> TextCorroborates(w, c, i, text))
  {
    FoundOne(w, i);
    assert Fetched(w)[i] == FetchOne(w, Found(w)[i]);
    var c, text := Fetched(w)[i], PageText(w, Found(w)[i]);
    forall t ensures PageRead(w, i, t) <==> Readable(c, text) && text == Some(t) {
    }
    if Readable(c, text) { assert PageRead(w, i, text.value); }
  }

  /** The i-th candidate at the decision. */
  function Judged(w: World, i: nat): Candidate
    requires i < |Found(w)|
  {
    EligibilityOne(w, ComparedAll(w)[i], i)
  }

  /** What the i-th candidate carries, compared with its own page, in terms of what the pages and the model said. */
  ghost predicate SaysWhatPagesSay(w: World, i: nat, c: Candidate)
    requires i < |Found(w)|
  {
    && Coupled(c)
    && c.officialUrl == Found(w)[i].officialUrl
    && (c.officialFetched <==> c.officialUrl.Some? && w.official(c.officialUrl.value).Some?)
    && (c.amountAgrees == Some(false) || c.deadlineAgrees == Some(false) <==> PageContradicts(w, i))
    && (c.amountAgrees == Some(true) && c.deadlineAgrees == Some(true) <==> PageCorroborates(w, i))
    && (PageCorroborates(w, i) ==> (c.contradictions != [] <==> Flags(w, i)))
    && (forall text | PageRead(w, i, text) ::
          && (c.amountAgrees == Some(false) <==> FundingContradicted(w, Found(w)[i], i, text))
          && (c.amountAgrees == Some(true) <==> FundingCorroborated(w, Found(w)[i], i, text)))
  }

  lemma ComparedFacts(w: World, i: nat)
    requires i < |Found(w)|
    ensures SaysWhatPagesSay(w, i, ComparedAll(w)[i]) && ComparedAll(w)[i].rules == []
  {
    FoundOne(w, i);
    PageIs(w, i);
    ComparedIsCoupled(w, Found(w)[i], i, PageText(w, Found(w)[i]));
    assert Fetched(w)[i] == FetchOne(w, Found(w)[i]);
    assert ComparedAll(w)[i] == CompareOne(w, Fetched(w)[i], i, PageText(w, Found(w)[i]));
  }

  /** At the decision: evidence covers a claim exactly when its verdict is agreement, a verdict implies a fetched page,
      a negative verdict is exactly a contradiction by that page, and two positive ones exactly its corroboration. */
  lemma JudgedFacts(w: World, i: nat)
    requires i < |Found(w)|
    ensures SaysWhatPagesSay(w, i, Judged(w, i))
    ensures PageCorroborates(w, i) ==> (Judged(w, i).rules != [] <==> HasRules(w, i))
  {
    ComparedFacts(w, i);
    EligibilityKeepsCoupled(w, ComparedAll(w)[i], i);
  }

  /** Corroborated, but the model flagged something or there are no eligibility rules. */
  ghost predicate NeedsReview(w: World, i: nat)
    requires i < |Found(w)|
  {
    PageCorroborates(w, i) && (Flags(w, i) || !HasRules(w, i))
  }

  ghost predicate PassesAll(w: World, i: nat)
    requires i < |Found(w)|
  {
    PageCorroborates(w, i) && !Flags(w, i) && HasRules(w, i)
  }

  /** The outcome of the i-th candidate, from what the pages and the model said. */
  lemma JudgedOutcome(w: World, i: nat)
    requires i < |Found(w)|
    ensures var outcome := DecideOutcome(Judged(w, i)).0;
            && (outcome == RejectRecommended <==> PageContradicts(w, i))
            && (outcome == ReviewRequired <==> NeedsReview(w, i))
            && (outcome == AutoCheckEligible <==> PassesAll(w, i))
            && (outcome == MoreEvidenceRequired <==> !PageContradicts(w, i) && !PageCorroborates(w, i))
  {
    JudgedFacts(w, i);
    DecisionTable(Judged(w, i));
  }

  ghost predicate SomeReview(w: World) {
    exists i | 0 <= i < |Found(w)| :: NeedsReview(w, i)
  }

  ghost predicate SomeContradicted(w: World) {
    exists i | 0 <= i < |Found(w)| :: PageContradicts(w, i)
  }

  /** The i-th candidate at the decision, when these texts were lost. */
  function JudgedWith(w: World, lost: set<nat>, i: nat): Candidate
    requires i < |Found(w)|
  {
    EligibilityOne(w, Partly(w, lost)[i], i)
  }

  /** The end of any run that examined candidates is the decision over what was gathered. */
  lemma FinalState(w: World, lost: set<nat>)
    requires Examined(w)
    ensures AtWith(w, End, lost) == Decided(At(w, CompareEvidence).(candidates := EligibilityAll(w, Partly(w, lost))))
  {
    SameUntilCompared(w, CompareEvidence, lost);
    AtDecide(w, lost);
    AtEnd(w, lost);
  }

  /** The end of any run that examined candidates, one by one. */
  lemma FinalWith(w: World, lost: set<nat>)
    requires Examined(w)
    ensures var st := AtWith(w, End, lost);
            && |st.candidates| == |Found(w)|
            && (forall i | 0 <= i < |Found(w)| :: st.candidates[i] == DecideOne(JudgedWith(w, lost, i)))
            && st.outcome == Some(RollUp(st.candidates))
            && st.notes == At(w, CompareEvidence).notes + [DecidedOver(st.outcome.value, |Found(w)|)]
  {
    AtFacts(w, CompareEvidence, {});
    FinalState(w, lost);
    DecidedFacts(At(w, CompareEvidence).(candidates := EligibilityAll(w, Partly(w, lost))));
  }

  lemma DecidedFacts(st: State)
    requires st.usable != Some(false) && OutcomeForPageType(st.pageType).None?
    ensures var out := Decided(st);
            && out.candidates == DecideAll(st.candidates)
            && out.outcome == Some(RollUp(out.candidates))
            && out.notes == st.notes + [DecidedOver(out.outcome.value, |st.candidates|)]
  {
  }

  lemma FinalCandidates(w: World)
    requires Examined(w)
    ensures var cs := At(w, End).candidates;
            && |cs| == |Found(w)|
            && (forall i | 0 <= i < |cs| :: cs[i] == DecideOne(Judged(w, i)))
            && At(w, End).outcome == Some(RollUp(cs))
  {
    FinalWith(w, {});
    forall i | 0 <= i < |Found(w)| ensures JudgedWith(w, {}, i) == Judged(w, i) {
    }
  }

  /** Runs that end without looking at candidates. */
  lemma ShortRuns(w: World, lost: set<nat>)
    ensures !w.pageUsable ==> AtWith(w, End, lost).outcome == Some(MoreEvidenceRequired)
    ensures w.pageUsable && w.classification == Some(NotAScholarship) ==>
              AtWith(w, End, lost).outcome == Some(RejectRecommended)
  {
    AtFacts(w, Decide, lost);
    AtEnd(w, lost);
  }

  lemma ReviewPresent(w: World, cs: seq<Candidate>)
    requires |cs| == |Found(w)| && forall i | 0 <= i < |cs| :: cs[i] == DecideOne(Judged(w, i))
    ensures Present(cs, ReviewRequired) <==> SomeReview(w)
  {
    forall i | 0 <= i < |cs| ensures cs[i].outcome == Some(ReviewRequired) <==> NeedsReview(w, i) {
      JudgedOutcome(w, i);
    }
    if SomeReview(w) {
      var i :| 0 <= i < |Found(w)| && NeedsReview(w, i);
      assert cs[i].outcome == Some(ReviewRequired);
    }
  }

  lemma RejectPresent(w: World, cs: seq<Candidate>)
    requires |cs| == |Found(w)| && forall i | 0 <= i < |cs| :: cs[i] == DecideOne(Judged(w, i))
    ensures Present(cs, RejectRecommended) <==> SomeContradicted(w)
  {
    forall i | 0 <= i < |cs| ensures cs[i].outcome == Some(RejectRecommended) <==> PageContradicts(w, i) {
      JudgedOutcome(w, i);
    }
    if SomeContradicted(w) {
      var i :| 0 <= i < |Found(w)| && PageContradicts(w, i);
      assert cs[i].outcome == Some(RejectRecommended);
    }
  }

  lemma AutoEverywhere(w: World, cs: seq<Candidate>)
    requires |cs| == |Found(w)| && forall i | 0 <= i < |cs| :: cs[i] == DecideOne(Judged(w, i))
    ensures forall i | 0 <= i < |cs| :: cs[i].outcome == Some(AutoCheckEligible) <==> PassesAll(w, i)
  {
    forall i | 0 <= i < |cs| ensures cs[i].outcome == Some(AutoCheckEligible) <==> PassesAll(w, i) {
      JudgedOutcome(w, i);
    }
  }

  /** The reject rule for whole runs, both ways: the job is rejected exactly when a usable page was classified as no
      scholarship, or some candidate is contradicted by its own official page and none needs review. A page nobody
      could read ends in a request for more evidence, whatever the model says. */
  lemma RejectIff(w: World)
    ensures At(w, End).outcome == Some(RejectRecommended) <==>
              && w.pageUsable
              && (w.classification == Some(NotAScholarship) || (SomeContradicted(w) && !SomeReview(w)))
    ensures !w.pageUsable ==> At(w, End).outcome == Some(MoreEvidenceRequired)
  {
    ShortRuns(w, {});
    if Examined(w) {
      FinalCandidates(w);
      var cs := At(w, End).candidates;
      RollUpIff(cs);
      ReviewPresent(w, cs);
      RejectPresent(w, cs);
    }
  }

  /** Automatic checking is recommended exactly when there are candidates and every one is corroborated on both claims
      by its own page, with nothing flagged by the model and with eligibility rules. */
  lemma AutoCheckIff(w: World)
    ensures At(w, End).outcome == Some(AutoCheckEligible) <==>
              && w.pageUsable && w.classification != Some(NotAScholarship) && Found(w) != []
              && forall i | 0 <= i < |Found(w)| :: PassesAll(w, i)
  {
    ShortRuns(w, {});
    if Examined(w) {
      FinalCandidates(w);
      var cs := At(w, End).candidates;
      RollUpIff(cs);
      AutoEverywhere(w, cs);
    }
  }

  /** A spelling never decides anything: when a candidate and its official page each mention one sum of money, however
      each of them writes it, the amount agrees. */
  lemma SpellingNeverContradicts(w: World, i: nat, text: string, a: Extraction.Mention, b: Extraction.Mention)
    requires Examined(w) && i < |Found(w)| && PageRead(w, i, text)
    requires Extraction.InGrammar(a) && Extraction.InGrammar(b) && Extraction.SameMoney(a, b)
    requires Extraction.Render(a) in Found(w)[i].fundingMentions
    requires Extraction.Render(b) in Extraction.FundingMentions(w.wordChar, Titled(Found(w)[i].title, text))
    ensures |At(w, End).candidates| == |Found(w)| && At(w, End).candidates[i].amountAgrees == Some(true)
  {
    FinalCandidates(w);
    JudgedFacts(w, i);
    SameMoneyCorroborates(w, Found(w)[i], i, text, a, b);
  }

  lemma SameMoneyCorroborates(w: World, c: Candidate, i: nat, text: string, a: Extraction.Mention,
                              b: Extraction.Mention)
    requires Extraction.InGrammar(a) && Extraction.InGrammar(b) && Extraction.SameMoney(a, b)
    requires Extraction.Render(a) in c.fundingMentions
    requires Extraction.Render(b) in Extraction.FundingMentions(w.wordChar, Titled(c.title, text))
    ensures FundingCorroborated(w, c, i, text)
  {
    Extraction.AgreeIff(a, b);
    Extraction.EveryMentionReadable(a);
    Extraction.EveryMentionReadable(b);
    var r, o := Extraction.Render(a), Extraction.Render(b);
    assert Alike(FactMatching.ParseAmount(r), FactMatching.ParseAmount(o));
    Extraction.RenderIsText(a);
    Extraction.RenderIsText(b);
  }
}
