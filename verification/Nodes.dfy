/** The workflow's steps on candidates, over arbitrary pages, search results and model answers. */
module Nodes {
  import opened Wrappers
  import opened Strings
  import opened Urls
  import opened Candidates
  import opened Comparison
  import opened Dedupe
  import opened OfficialSource
  import FactMatching
  import Extraction
  import Normalization
  import Policies

  const MAX_CANDIDATES_PER_PAGE: nat := 50

  datatype SplitItem = SplitItem(title: string, url: Option<Url>, excerpt: string)

  datatype SplitReply = SplitUnavailable | SplitInto(items: seq<SplitItem>)

  datatype ExtractReply = ExtractFailed | ExtractUnavailable | ExtractRead

  /** `pairs`: the (reported, official) strings the model located, by claim path. */
  datatype CompareReply =
    | CompareFailed
    | CompareUnavailable
    | CompareRead(contradictions: seq<string>, pairs: map<string, Located>)

  datatype RulesReply = RulesFailed | RulesUnavailable | RulesRead(rules: seq<string>)

  /** One job's outside world. Model calls are answered by step and candidate index (their idempotency key), pages
      by URL, searches by title; text functions are those the standard library supplies. */
  datatype World = World(
    job: nat,
    sourceUrl: Url,
    authorityGrade: string,
    discoveryId: string,
    rawTitle: string,
    rawExcerpt: string,
    pageUsable: bool,
    classification: Option<PageType>,
    split: SplitReply,
    extract: nat -> ExtractReply,
    search: string -> seq<SearchResult>,
    official: Url -> Option<string>,
    compare: nat -> CompareReply,
    rules: nat -> RulesReply,
    clean: string -> string,
    folded: string -> string,
    stripOrdinal: string -> string,
    wordChar: char -> bool,
    deadlines: string -> seq<string>,
    parseDeadline: string -> Option<int>)

  // ---- Split ----

  /** The identity key of a title. */
  function KeyOf(w: World, title: string): string {
    Normalization.IdentityKey(" " + w.clean(title))
  }

  function SingleCandidate(w: World): seq<Candidate> {
    [NewCandidate(w.rawTitle, KeyOf(w, w.rawTitle), Some(w.sourceUrl), w.rawExcerpt, Some(w.discoveryId))]
  }

  function FromItems(w: World, items: seq<SplitItem>): seq<Candidate> {
    if items == [] then []
    else
      var title := w.stripOrdinal(items[0].title);
      (if title == "" then [] else [NewCandidate(title, KeyOf(w, title), items[0].url, items[0].excerpt, None)])
      + FromItems(w, items[1..])
  }

  function SplitCandidates(w: World): seq<Candidate> {
    match w.split
    case SplitUnavailable => SingleCandidate(w)
    case SplitInto(items) =>
      FromItems(w, if |items| > MAX_CANDIDATES_PER_PAGE then items[..MAX_CANDIDATES_PER_PAGE] else items)
  }

  /** The candidate an entry of a list page becomes. */
  ghost predicate IsEntry(w: World, item: SplitItem, c: Candidate) {
    && c.title == w.stripOrdinal(item.title) && c.url == item.url && c.excerpt == item.excerpt && c.discoveryId.None?
  }

  ghost predicate IsEntryAt(w: World, items: seq<SplitItem>, at: seq<nat>, cs: seq<Candidate>, k: nat)
    requires k < |at| == |cs|
  {
    at[k] < |items| && IsEntry(w, items[at[k]], cs[k])
  }

  /** The candidates are the entries at these places, in order, and no titled entry is missing. */
  ghost predicate Entries(w: World, items: seq<SplitItem>, cs: seq<Candidate>, at: seq<nat>) {
    && |at| == |cs| && Rising(at)
    && (forall k | 0 <= k < |cs| :: IsEntryAt(w, items, at, cs, k))
    && (forall i | 0 <= i < |items| :: i in at <==> w.stripOrdinal(items[i].title) != "")
  }

  lemma EntryPlaces(w: World, item: SplitItem, items: seq<SplitItem>, keep: bool, at: seq<nat>)
    requires forall i | 0 <= i < |items| :: i in at <==> w.stripOrdinal(items[i].title) != ""
    requires keep <==> w.stripOrdinal(item.title) != ""
    ensures var all := [item] + items;
            forall i | 0 <= i < |all| :: i in InFront(keep, at) <==> w.stripOrdinal(all[i].title) != ""
  {
    var all := [item] + items;
    forall i | 0 <= i < |all| ensures i in InFront(keep, at) <==> w.stripOrdinal(all[i].title) != "" {
      InFrontHas(keep, at, i);
    }
  }

  lemma EntryInFront(w: World, item: SplitItem, items: seq<SplitItem>, c: Candidate, cs: seq<Candidate>, at: seq<nat>,
                     k: nat)
    requires Entries(w, items, cs, at) && IsEntry(w, item, c)
    requires k < |cs| + if c.title != "" then 1 else 0
    ensures var keep := c.title != "";
            IsEntryAt(w, [item] + items, InFront(keep, at), (if keep then [c] else []) + cs, k)
  {
    var n := if c.title != "" then 1 else 0;
    if k >= n { assert IsEntryAt(w, items, at, cs, k - n); }
  }

  lemma EntriesInFront(w: World, item: SplitItem, items: seq<SplitItem>, c: Candidate, cs: seq<Candidate>, at: seq<nat>)
    requires Entries(w, items, cs, at) && IsEntry(w, item, c)
    ensures var keep := c.title != "";
            Entries(w, [item] + items, (if keep then [c] else []) + cs, InFront(keep, at))
  {
    var keep := c.title != "";
    EntryPlaces(w, item, items, keep, at);
    var out := (if keep then [c] else []) + cs;
    forall k | 0 <= k < |out| ensures IsEntryAt(w, [item] + items, InFront(keep, at), out, k) {
      EntryInFront(w, item, items, c, cs, at, k);
    }
  }

  function EntryOf(w: World, item: SplitItem): Candidate {
    var title := w.stripOrdinal(item.title);
    NewCandidate(title, KeyOf(w, title), item.url, item.excerpt, None)
  }

  lemma FromItemsStep(w: World, items: seq<SplitItem>)
    requires items != []
    ensures FromItems(w, items) ==
            (if EntryOf(w, items[0]).title != "" then [EntryOf(w, items[0])] else []) + FromItems(w, items[1..])
    ensures IsEntry(w, items[0], EntryOf(w, items[0])) && items == [items[0]] + items[1..]
  {
  }

  lemma {:induction false} FromItemsIs(w: World, items: seq<SplitItem>) returns (at: seq<nat>)
    ensures Entries(w, items, FromItems(w, items), at)
  {
    if items == [] {
      at := [];
    } else {
      var rest := FromItemsIs(w, items[1..]);
      FromItemsStep(w, items);
      EntriesInFront(w, items[0], items[1..], EntryOf(w, items[0]), FromItems(w, items[1..]), rest);
      at := InFront(EntryOf(w, items[0]).title != "", rest);
    }
  }

  /** Two titles are one award exactly when they are made of the same words, as the product folds them. */
  lemma KeyOfIff(w: World, a: string, b: string)
    ensures KeyOf(w, a) == KeyOf(w, b) <==>
            Normalization.Members(Normalization.Tokens(w.clean(a))) ==
            Normalization.Members(Normalization.Tokens(w.clean(b)))
  {
    Normalization.KeysEqualIff(" " + w.clean(a), " " + w.clean(b));
    Normalization.TokensSkip(" ", w.clean(a));
    Normalization.TokensSkip(" ", w.clean(b));
  }

  // ---- Extract ----

  function JoinText(title: string, excerpt: string): string {
    if title == "" then excerpt else if excerpt == "" then title else title + " " + excerpt
  }

  function FundingIn(w: World, title: string, text: string): seq<string> {
    Extraction.FundingMentions(w.wordChar, JoinText(title, text))
  }

  function DeadlinesIn(w: World, title: string, text: string): seq<string> {
    w.deadlines(JoinText(title, text))
  }

  function ExtractOne(w: World, c: Candidate, i: nat): Candidate {
    var d := c.(fundingMentions := FundingIn(w, c.title, c.excerpt),
                deadlineMentions := DeadlinesIn(w, c.title, c.excerpt));
    match w.extract(i)
    case ExtractFailed => Because(d, ExtractionFailed)
    case ExtractUnavailable => Because(d, ExtractionUnavailable)
    case ExtractRead => d
  }

  // ---- Official source ----

  function Registrable(host: string): string {
    var parts := Split(host, '.');
    if |parts| >= 2 then parts[|parts| - 2] + "." + parts[|parts| - 1] else host
  }

  predicate Authoritative(grade: string) {
    grade in ["A", "B", "a", "b"]
  }

  /** What the search would pick for a title: never on the source's host nor on one that shares a name with it. */
  function SearchPick(w: World, title: string): Option<SearchResult> {
    PickOfficial(w.folded(title), w.search(title), HostLabels(w.sourceUrl.host), {w.sourceUrl.host})
  }

  lemma PickIsNotSource(w: World, title: string)
    ensures SearchPick(w, title).Some? ==> !SamePage(SearchPick(w, title).value.url, w.sourceUrl)
  {
    PickIsNeverTheSource(w.folded(title), w.search(title), w.sourceUrl, {w.sourceUrl.host});
  }

  /** What a search adds to a candidate without an official page, given what was picked from its results. */
  function AfterSearch(c: Candidate, results: seq<SearchResult>, pick: Option<SearchResult>, source: Url): Candidate {
    if results == [] then Because(c, NoOfficialSource)
    else
      match pick
      case Some(r) => Because(c.(officialUrl := Some(r.url)), IdentifiedBySearch)
      case None =>
        if exists i | 0 <= i < |results| :: SamePage(results[i].url, source)
        then Because(c, SearchFoundOwnPage)
        else Because(c, NoResultNamesAward)
  }

  /** Last resort; it only ever adds. */
  function SearchOne(w: World, c: Candidate): Candidate {
    if c.officialUrl.Some? then c
    else
      AfterSearch(c, w.search(c.title),
                  PickOfficial(w.folded(c.title), w.search(c.title), HostLabels(w.sourceUrl.host), {w.sourceUrl.host}),
                  w.sourceUrl)
  }

  function FindOne(w: World, c: Candidate): Candidate {
    if c.url.None? then SearchOne(w, Because(c, NoLink))
    else
      var link := c.url.value;
      if Registrable(link.host) == "" then c
      else if SamePage(link, w.sourceUrl) then
        SearchOne(w, Because(c, LinkIsOwnPage))
      else if Registrable(link.host) != Registrable(w.sourceUrl.host) || Authoritative(w.authorityGrade) then
        c.(officialUrl := Some(link))
      else SearchOne(w, Because(c, LinkStaysOnSource))
  }

  ghost predicate NotSource(w: World, c: Candidate) {
    c.officialUrl.Some? ==> !SamePage(c.officialUrl.value, w.sourceUrl)
  }

  // ---- Which page is official, exactly ----

  /** A host's last two labels, or its only one. */
  ghost function LastTwo(host: string): seq<string> {
    var labels := Split(host, '.');
    if |labels| < 2 then labels else labels[|labels| - 2..]
  }

  /** The link is evidence: it leads to another page, on another domain or from a source graded A or B. */
  ghost predicate LinkCounts(w: World, link: Url) {
    && link.host != "" && !SamePage(link, w.sourceUrl)
    && (LastTwo(link.host) != LastTwo(w.sourceUrl.host) || w.authorityGrade in ["A", "a", "B", "b"])
  }

  /** Why a link is not evidence. */
  ghost function Refusal(w: World, c: Candidate): Reason {
    if c.url.None? then NoLink else if SamePage(c.url.value, w.sourceUrl) then LinkIsOwnPage else LinkStaysOnSource
  }

  /** What the search comes to. */
  ghost function ReasonOf(results: seq<SearchResult>, pick: Option<SearchResult>, source: Url): Reason {
    if pick.Some? then IdentifiedBySearch
    else if results == [] then NoOfficialSource
    else if exists r | r in results :: SamePage(r.url, source) then SearchFoundOwnPage
    else NoResultNamesAward
  }

  ghost function SearchReason(w: World, title: string): Reason {
    ReasonOf(w.search(title), SearchPick(w, title), w.sourceUrl)
  }

  /** The official page found for a candidate: its own link when that counts; otherwise, unless the link has no host,
      the search's pick if there is one. A refusal and the search each leave their reason; nothing else changes. */
  ghost predicate FoundFor(w: World, c: Candidate, d: Candidate) {
    && d == c.(officialUrl := d.officialUrl, reasons := d.reasons)
    && if c.url.Some? && LinkCounts(w, c.url.value) then d.officialUrl == c.url && d.reasons == c.reasons
       else if c.url.Some? && c.url.value.host == "" then d.officialUrl.None? && d.reasons == c.reasons
       else
         && d.officialUrl == (if SearchPick(w, c.title).Some? then Some(SearchPick(w, c.title).value.url) else None)
         && d.reasons == c.reasons + [Refusal(w, c), SearchReason(w, c.title)]
  }

  lemma {:induction false} FirstDot(a: string, b: string, c: string, d: string)
    requires a + "." + b == c + "." + d && '.' !in a && '.' !in c
    ensures a == c && b == d
  {
    var s := a + "." + b;
    assert s[|a|] == '.' && s[|c|] == '.';
    assert forall k | 0 <= k < |a| :: s[k] == a[k];
    assert forall k | 0 <= k < |c| :: s[k] == c[k];
    assert |a| == |c|;
    assert s[..|a|] == a && s[..|c|] == c && s[|a| + 1..] == b && s[|c| + 1..] == d;
  }

  lemma OneLabel(host: string)
    requires '.' !in host
    ensures Registrable(host) == host && LastTwo(host) == [host]
  {
    SplitPieces(host, '.');
  }

  lemma TwoLabels(host: string) returns (x: string, y: string)
    requires '.' in host
    ensures Registrable(host) == x + "." + y && LastTwo(host) == [x, y] && '.' !in x
  {
    SplitPieces(host, '.');
    var parts := Split(host, '.');
    x, y := parts[|parts| - 2], parts[|parts| - 1];
    assert x in parts;
  }

  lemma DotInside(x: string, y: string)
    ensures '.' in x + "." + y
  {
    assert (x + "." + y)[|x|] == '.';
  }

  /** Two hosts are on one registrable domain exactly when their last two labels agree; only no host has none. */
  lemma RegistrableIff(a: string, b: string)
    ensures Registrable(a) == Registrable(b) <==> LastTwo(a) == LastTwo(b)
    ensures Registrable(a) == "" <==> a == ""
  {
    if '.' in a {
      var p, q := TwoLabels(a);
      DotInside(p, q);
      if '.' in b {
        var r, s := TwoLabels(b);
        if Registrable(a) == Registrable(b) { FirstDot(p, q, r, s); }
      } else {
        OneLabel(b);
      }
    } else {
      OneLabel(a);
      if '.' in b {
        var r, s := TwoLabels(b);
        DotInside(r, s);
      } else {
        OneLabel(b);
      }
    }
  }

  lemma NothingPicked(w: World, title: string)
    requires w.search(title) == []
    ensures SearchPick(w, title).None?
  {
    PickNoneIff(w.folded(title), [], HostLabels(w.sourceUrl.host), {w.sourceUrl.host});
  }

  lemma OwnPageAmong(results: seq<SearchResult>, source: Url)
    ensures (exists i | 0 <= i < |results| :: SamePage(results[i].url, source)) <==>
            (exists r | r in results :: SamePage(r.url, source))
  {
    if i :| 0 <= i < |results| && SamePage(results[i].url, source) { assert results[i] in results; }
  }

  lemma AfterSearchIs(c: Candidate, results: seq<SearchResult>, pick: Option<SearchResult>, source: Url)
    requires results == [] ==> pick.None?
    requires c.officialUrl.None?
    ensures var d := AfterSearch(c, results, pick, source);
            && d == c.(officialUrl := d.officialUrl, reasons := d.reasons)
            && d.officialUrl == (if pick.Some? then Some(pick.value.url) else None)
            && d.reasons == c.reasons + [ReasonOf(results, pick, source)]
  {
    OwnPageAmong(results, source);
  }

  lemma SearchIs(w: World, c: Candidate)
    requires c.officialUrl.None?
    ensures var pick, d := SearchPick(w, c.title), SearchOne(w, c);
            && d == c.(officialUrl := d.officialUrl, reasons := d.reasons)
            && d.officialUrl == (if pick.Some? then Some(pick.value.url) else None)
            && d.reasons == c.reasons + [SearchReason(w, c.title)]
  {
    if w.search(c.title) == [] { NothingPicked(w, c.title); }
    AfterSearchIs(c, w.search(c.title), SearchPick(w, c.title), w.sourceUrl);
  }

  lemma FindByLink(w: World, c: Candidate)
    requires c.officialUrl.None? && c.url.Some?
    ensures var link := c.url.value;
            FindOne(w, c) == if LinkCounts(w, link) then c.(officialUrl := c.url)
                             else if link.host == "" then c
                             else SearchOne(w, Because(c, Refusal(w, c)))
  {
    RegistrableIff(c.url.value.host, w.sourceUrl.host);
  }

  /** The step finds that page, for every candidate and whatever the links and the search say. */
  lemma FindIs(w: World, c: Candidate)
    requires c.officialUrl.None?
    ensures FoundFor(w, c, FindOne(w, c))
  {
    SearchAfter(w, c, Refusal(w, c));
    if c.url.Some? { FindByLink(w, c); }
  }

  lemma SearchAfter(w: World, c: Candidate, why: Reason)
    requires c.officialUrl.None?
    ensures var pick, d := SearchPick(w, c.title), SearchOne(w, Because(c, why));
            && d == c.(officialUrl := d.officialUrl, reasons := d.reasons)
            && d.officialUrl == (if pick.Some? then Some(pick.value.url) else None)
            && d.reasons == c.reasons + [why, SearchReason(w, c.title)]
  {
    SearchIs(w, Because(c, why));
  }

  /** No self-corroboration: whatever the page, its links and the search say, an official URL that this step sets is
      not the source page. */
  lemma FindNeverPicksSource(w: World, c: Candidate)
    requires c.officialUrl.None?
    ensures NotSource(w, FindOne(w, c))
  {
    FindIs(w, c);
    PickIsNotSource(w, c.title);
  }

  // ---- Fetch ----

  /** Official page text between fetch and comparison, by (job, identity key). Never checkpointed. */
  type Texts = map<(nat, string), string>

  function TextOf(texts: Texts, job: nat, key: string): Option<string> {
    if (job, key) in texts then Some(texts[(job, key)]) else None
  }

  function PageText(w: World, c: Candidate): Option<string> {
    if c.officialUrl.None? then None else w.official(c.officialUrl.value)
  }

  function FetchOne(w: World, c: Candidate): Candidate {
    if c.officialUrl.None? then c
    else match w.official(c.officialUrl.value)
      case None => Because(c, FetchFailed)
      case Some(_) => c.(officialFetched := true, evidence := c.evidence + [PageSeen(c.officialUrl.value)])
  }

  function PutTexts(w: World, cs: seq<Candidate>, texts: Texts): Texts {
    if cs == [] then texts
    else
      var before, c := PutTexts(w, cs[..|cs| - 1], texts), cs[|cs| - 1];
      match PageText(w, c)
      case None => before
      case Some(text) => before[(w.job, c.key) := text]
  }

  // ---- Compare ----

  function LocatedFor(w: World, i: nat, claimPath: string): Located {
    var reply := w.compare(i);
    if reply.CompareRead? && claimPath in reply.pairs then reply.pairs[claimPath] else (None, None)
  }

  function DeadlineComparator(w: World): Comparator {
    (a: string, b: string) => FactMatching.DeadlinesMatch(w.parseDeadline, a, b)
  }

  function AmountComparator(): Comparator {
    (a: string, b: string) => FactMatching.AmountsMatch(a, b)
  }

  lemma AmountsAreRead()
    ensures ComparesReadings(AmountComparator(), FactMatching.ParseAmount)
  {
  }

  lemma DeadlinesAreRead(w: World)
    ensures ComparesReadings(DeadlineComparator(w), w.parseDeadline)
  {
  }

  /** The model quoted these two strings, the reported and the official one, for a claim. */
  predicate Quoted(w: World, i: nat, claimPath: string, r: string, o: string) {
    && w.compare(i).CompareRead? && claimPath in w.compare(i).pairs
    && w.compare(i).pairs[claimPath] == (Some(r), Some(o)) && r != "" && o != ""
  }

  /** On one claim, these mentions contradict those: each side states one value and they are read as different ones; or
      neither that nor agreement, and the model's two quotes are read as different values. */
  ghost predicate ClaimContradicted<V>(w: World, i: nat, claimPath: string, reported: seq<string>,
                                           official: seq<string>, read: string -> Option<V>)
  {
    || StatedApart(reported, official, read)
    || (&& !StatedAlike(reported, official, read)
        && exists r, o | Quoted(w, i, claimPath, r, o) :: Apart(read(r), read(o)))
  }

  /** On one claim, these mentions agree with those: some value stated on both sides is read alike; or neither that nor
      contradiction, and the model's two quotes are read alike. */
  ghost predicate ClaimCorroborated<V>(w: World, i: nat, claimPath: string, reported: seq<string>,
                                           official: seq<string>, read: string -> Option<V>)
  {
    || StatedAlike(reported, official, read)
    || (&& !StatedApart(reported, official, read)
        && exists r, o | Quoted(w, i, claimPath, r, o) :: Alike(read(r), read(o)))
  }

  /** What the official page says beside the award's title, which is read with it. */
  function Titled(title: string, text: string): string {
    if title == "" then text else title + " " + text
  }

  ghost predicate FundingContradicted(w: World, c: Candidate, i: nat, text: string) {
    ClaimContradicted(w, i, "funding.amount", c.fundingMentions,
                      Extraction.FundingMentions(w.wordChar, Titled(c.title, text)), FactMatching.ParseAmount)
  }

  ghost predicate FundingCorroborated(w: World, c: Candidate, i: nat, text: string) {
    ClaimCorroborated(w, i, "funding.amount", c.fundingMentions,
                      Extraction.FundingMentions(w.wordChar, Titled(c.title, text)), FactMatching.ParseAmount)
  }

  ghost predicate DeadlineContradicted(w: World, c: Candidate, i: nat, text: string) {
    ClaimContradicted(w, i, "deadline.date", c.deadlineMentions, w.deadlines(Titled(c.title, text)), w.parseDeadline)
  }

  ghost predicate DeadlineCorroborated(w: World, c: Candidate, i: nat, text: string) {
    ClaimCorroborated(w, i, "deadline.date", c.deadlineMentions, w.deadlines(Titled(c.title, text)), w.parseDeadline)
  }

  /** One claim settled against a text, in terms of readings. */
  lemma ClaimSettled<V>(w: World, i: nat, claimPath: string, reported: seq<string>, official: seq<string>,
                            cmp: Comparator, read: string -> Option<V>)
    requires ComparesReadings(cmp, read)
    ensures var s := SettleClaim(Values(reported), Values(official), LocatedFor(w, i, claimPath), cmp);
            && (s.agrees == Some(true) ==> s.value.Some? && s.value.value != "")
            && (s.agrees == Some(false) <==> ClaimContradicted(w, i, claimPath, reported, official, read))
            && (s.agrees == Some(true) <==> ClaimCorroborated(w, i, claimPath, reported, official, read))
  {
    var located := LocatedFor(w, i, claimPath);
    SettledReadings(reported, official, located, cmp, read);
    forall r, o ensures Quoted(w, i, claimPath, r, o) <==>
                          LocatedBoth(located) && r == located.0.value && o == located.1.value
    {
    }
    if LocatedBoth(located) { assert Quoted(w, i, claimPath, located.0.value, located.1.value); }
  }

  /** What a page's text says about each claim: contradiction and agreement exactly as read, and a value for every
      agreement. */
  lemma SettledClaims(w: World, c: Candidate, i: nat, text: string)
    requires text != ""
    ensures var s := SettleFunding(w, c, i, text);
            && (s.agrees == Some(true) ==> s.value.Some? && s.value.value != "")
            && (s.agrees == Some(false) <==> FundingContradicted(w, c, i, text))
            && (s.agrees == Some(true) <==> FundingCorroborated(w, c, i, text))
    ensures var s := SettleDeadline(w, c, i, text);
            && (s.agrees == Some(true) ==> s.value.Some? && s.value.value != "")
            && (s.agrees == Some(false) <==> DeadlineContradicted(w, c, i, text))
            && (s.agrees == Some(true) <==> DeadlineCorroborated(w, c, i, text))
  {
    assert JoinText(c.title, text) == Titled(c.title, text);
    AmountsAreRead();
    DeadlinesAreRead(w);
    ClaimSettled(w, i, "funding.amount", c.fundingMentions, FundingIn(w, c.title, text), AmountComparator(),
                 FactMatching.ParseAmount);
    ClaimSettled(w, i, "deadline.date", c.deadlineMentions, DeadlinesIn(w, c.title, text), DeadlineComparator(w),
                 w.parseDeadline);
  }

  function SettleFunding(w: World, c: Candidate, i: nat, text: string): Settled {
    SettleClaim(Values(c.fundingMentions), Values(FundingIn(w, c.title, text)), LocatedFor(w, i, "funding.amount"),
                AmountComparator())
  }

  function SettleDeadline(w: World, c: Candidate, i: nat, text: string): Settled {
    SettleClaim(Values(c.deadlineMentions), Values(DeadlinesIn(w, c.title, text)), LocatedFor(w, i, "deadline.date"),
                DeadlineComparator(w))
  }

  /** What a piece of evidence for a claim rests on: it carries the official page's URL and a value that page states,
      read as a reported one is; or, marked as the model's, the model's official quote, read as its reported one is. */
  ghost predicate Backs<V>(w: World, i: nat, claimPath: string, reported: seq<string>, official: seq<string>,
                           read: string -> Option<V>, url: Option<Url>, e: Evidence)
  {
    && e.Agreement? && e.url == url
    && (e.confidence == Explicit <==> StatedAlike(reported, official, read))
    && if e.confidence == Explicit
       then e.value in official && exists r | r in reported :: Alike(read(r), read(e.value))
       else exists r | Quoted(w, i, claimPath, r, e.value) :: Alike(read(r), read(e.value))
  }

  lemma EvidenceBacks<V>(w: World, i: nat, claim: Claim, claimPath: string, reported: seq<string>,
                         official: seq<string>, cmp: Comparator, read: string -> Option<V>, url: Option<Url>,
                         e: Evidence)
    requires ComparesReadings(cmp, read)
    requires var s := SettleClaim(Values(reported), Values(official), LocatedFor(w, i, claimPath), cmp);
             e in ClaimEvidence(claim, s, url)
    ensures e.Agreement? && e.claim == claim && Backs(w, i, claimPath, reported, official, read, url, e)
  {
    var located := LocatedFor(w, i, claimPath);
    SettledValue(reported, official, located, cmp, read);
    if e.confidence != Explicit { assert Quoted(w, i, claimPath, located.0.value, e.value); }
  }

  /** Evidence that comparing a candidate adds is for a claim that agreed, and rests on what the pages or the model's
      quotes say. */
  lemma EvidenceRests(w: World, c: Candidate, i: nat, text: string, e: Evidence)
    requires Readable(c, Some(text)) && e in CompareOne(w, c, i, Some(text)).evidence && e !in c.evidence
    ensures e.Agreement?
    ensures e.claim == Funding ==>
              Backs(w, i, "funding.amount", c.fundingMentions,
                    Extraction.FundingMentions(w.wordChar, Titled(c.title, text)), FactMatching.ParseAmount,
                    c.officialUrl, e)
    ensures e.claim == Deadline ==>
              Backs(w, i, "deadline.date", c.deadlineMentions, w.deadlines(Titled(c.title, text)), w.parseDeadline,
                    c.officialUrl, e)
  {
    assert JoinText(c.title, text) == Titled(c.title, text);
    AmountsAreRead();
    DeadlinesAreRead(w);
    var f := ClaimEvidence(Funding, SettleFunding(w, c, i, text), c.officialUrl);
    var d := ClaimEvidence(Deadline, SettleDeadline(w, c, i, text), c.officialUrl);
    assert CompareOne(w, c, i, Some(text)).evidence == c.evidence + f + d;
    assert e in f || e in d;
    if e in f {
      EvidenceBacks(w, i, Funding, "funding.amount", c.fundingMentions, FundingIn(w, c.title, text),
                    AmountComparator(), FactMatching.ParseAmount, c.officialUrl, e);
    } else {
      EvidenceBacks(w, i, Deadline, "deadline.date", c.deadlineMentions, DeadlinesIn(w, c.title, text),
                    DeadlineComparator(w), w.parseDeadline, c.officialUrl, e);
    }
  }

  predicate Readable(c: Candidate, text: Option<string>) {
    c.officialFetched && text.Some? && text.value != ""
  }

  function CompareOne(w: World, c: Candidate, i: nat, text: Option<string>): Candidate {
    if !Readable(c, text) then c
    else
      var d := match w.compare(i)
        case CompareFailed => Because(c, ComparisonFailed)
        case CompareUnavailable => c
        case CompareRead(contradictions, _) => c.(contradictions := contradictions);
      SettleAgreement(d, SettleFunding(w, c, i, text.value), SettleDeadline(w, c, i, text.value))
  }

  /** Candidates in order, each taking its text out of the table. */
  function ComparePass(w: World, cs: seq<Candidate>, texts: Texts): (r: (seq<Candidate>, Texts))
    ensures |r.0| == |cs|
  {
    if cs == [] then ([], texts)
    else
      var before, c := ComparePass(w, cs[..|cs| - 1], texts), cs[|cs| - 1];
      (before.0 + [CompareOne(w, c, |cs| - 1, TextOf(before.1, w.job, c.key))], before.1 - {(w.job, c.key)})
  }

  // ---- Eligibility and decision ----

  function EligibilityOne(w: World, c: Candidate, i: nat): Candidate {
    if !c.officialFetched && c.excerpt == "" then c
    else match w.rules(i)
      case RulesFailed => Because(c, RulesExtractionFailed)
      case RulesUnavailable => Because(c, RulesExtractionUnavailable)
      case RulesRead(rules) => c.(rules := rules)
  }

  function DecideOne(c: Candidate): Candidate {
    c.(outcome := Some(Policies.DecideOutcome(c).0), reasons := c.reasons + Policies.DecideOutcome(c).1)
  }

  // ---- One step for every candidate ----

  function ExtractAll(w: World, cs: seq<Candidate>): (r: seq<Candidate>)
    ensures |r| == |cs| && forall i | 0 <= i < |cs| :: r[i] == ExtractOne(w, cs[i], i)
  {
    seq(|cs|, i requires 0 <= i < |cs| => ExtractOne(w, cs[i], i))
  }

  function FindAll(w: World, cs: seq<Candidate>): (r: seq<Candidate>)
    ensures |r| == |cs| && forall i | 0 <= i < |cs| :: r[i] == FindOne(w, cs[i])
  {
    seq(|cs|, i requires 0 <= i < |cs| => FindOne(w, cs[i]))
  }

  function FetchAll(w: World, cs: seq<Candidate>): (r: seq<Candidate>)
    ensures |r| == |cs| && forall i | 0 <= i < |cs| :: r[i] == FetchOne(w, cs[i])
  {
    seq(|cs|, i requires 0 <= i < |cs| => FetchOne(w, cs[i]))
  }

  function EligibilityAll(w: World, cs: seq<Candidate>): (r: seq<Candidate>)
    ensures |r| == |cs| && forall i | 0 <= i < |cs| :: r[i] == EligibilityOne(w, cs[i], i)
  {
    seq(|cs|, i requires 0 <= i < |cs| => EligibilityOne(w, cs[i], i))
  }

  function DecideAll(cs: seq<Candidate>): (r: seq<Candidate>)
    ensures |r| == |cs| && forall i | 0 <= i < |cs| :: r[i] == DecideOne(cs[i])
  {
    seq(|cs|, i requires 0 <= i < |cs| => DecideOne(cs[i]))
  }

  /** One outcome for everyone, whatever was gathered. */
  function MarkAll(cs: seq<Candidate>, outcome: Outcome, reason: Reason): (r: seq<Candidate>)
    ensures |r| == |cs| && forall i | 0 <= i < |cs| :: r[i] == Because(cs[i].(outcome := Some(outcome)), reason)
  {
    seq(|cs|, i requires 0 <= i < |cs| => Because(cs[i].(outcome := Some(outcome)), reason))
  }

  /** What the decision makes of the candidates and of the job. */
  function Verdicts(pageUsable: Option<bool>, pageType: Option<PageType>, cs: seq<Candidate>)
    : (seq<Candidate>, Outcome)
  {
    if pageUsable == Some(false) then (MarkAll(cs, MoreEvidenceRequired, SourceNotRetrieved), MoreEvidenceRequired)
    else match Policies.OutcomeForPageType(pageType)
      case Some(o) => (MarkAll(cs, o, NoFundingOpportunity), o)
      case None => (DecideAll(cs), Policies.RollUp(DecideAll(cs)))
  }

  // ---- The nodes that loop over candidates, as the process runs them ----

  class Workflow {
    var officialText: Texts

    constructor ()
      ensures officialText == map[]
    {
      officialText := map[];
    }

    method FindOfficialSource(w: World, cs: seq<Candidate>) returns (out: seq<Candidate>)
      ensures out == FindAll(w, cs)
      ensures forall i | 0 <= i < |cs| && cs[i].officialUrl.None? :: FoundFor(w, cs[i], out[i])
    {
      out := [];
      for i := 0 to |cs|
        invariant |out| == i && forall k | 0 <= k < i :: out[k] == FindOne(w, cs[k])
      {
        out := out + [FindOne(w, cs[i])];
      }
      forall i | 0 <= i < |cs| && cs[i].officialUrl.None? ensures FoundFor(w, cs[i], out[i]) { FindIs(w, cs[i]); }
    }

    /** One unreachable page does not cost the others their verification. */
    method FetchOfficial(w: World, cs: seq<Candidate>) returns (out: seq<Candidate>)
      modifies this
      ensures out == FetchAll(w, cs)
      ensures officialText == PutTexts(w, cs, old(officialText))
    {
      out := [];
      for i := 0 to |cs|
        invariant |out| == i && forall k | 0 <= k < i :: out[k] == FetchOne(w, cs[k])
        invariant officialText == PutTexts(w, cs[..i], old(officialText))
      {
        assert cs[..i + 1][..i] == cs[..i];
        var c := cs[i];
        if c.officialUrl.Some? {
          var page := w.official(c.officialUrl.value);
          if page.None? {
            c := Because(c, FetchFailed);
          } else {
            c := c.(officialFetched := true, evidence := c.evidence + [PageSeen(c.officialUrl.value)]);
            officialText := officialText[(w.job, c.key) := page.value];
          }
        }
        out := out + [c];
      }
      assert cs[..|cs|] == cs;
    }

    method CompareEvidence(w: World, cs: seq<Candidate>) returns (out: seq<Candidate>)
      modifies this
      ensures (out, officialText) == ComparePass(w, cs, old(officialText))
    {
      out := [];
      for i := 0 to |cs|
        invariant (out, officialText) == ComparePass(w, cs[..i], old(officialText))
      {
        assert cs[..i + 1][..i] == cs[..i];
        var c := cs[i];
        var text := TextOf(officialText, w.job, c.key);
        officialText := officialText - {(w.job, c.key)};
        if c.officialFetched && text.Some? && text.value != "" {
          var settled := Settle(w, c, i, text.value);
          out := out + [settled];
        } else {
          out := out + [c];
        }
      }
      assert cs[..|cs|] == cs;
    }

    /** Decide agreement per claim, preferring deterministically read values. */
    method Settle(w: World, c: Candidate, i: nat, text: string) returns (out: Candidate)
      requires c.officialFetched && text != ""
      ensures out == CompareOne(w, c, i, Some(text))
      ensures out.amountAgrees == Some(false) <==> FundingContradicted(w, c, i, text)
      ensures out.amountAgrees == Some(true) <==> FundingCorroborated(w, c, i, text)
      ensures out.deadlineAgrees == Some(false) <==> DeadlineContradicted(w, c, i, text)
      ensures out.deadlineAgrees == Some(true) <==> DeadlineCorroborated(w, c, i, text)
      ensures out == c.(contradictions := out.contradictions, reasons := out.reasons, evidence := out.evidence,
                        amountAgrees := out.amountAgrees, deadlineAgrees := out.deadlineAgrees)
    {
      out := c;
      match w.compare(i) {
        case CompareFailed => out := Because(c, ComparisonFailed);
        case CompareUnavailable =>
        case CompareRead(contradictions, _) => out := c.(contradictions := contradictions);
      }
      var reported := CollectValues(c.fundingMentions);
      var stated := CollectValues(FundingIn(w, c.title, text));
      var funding := SettleOneClaim(reported, stated, LocatedFor(w, i, "funding.amount"), AmountComparator());
      reported := CollectValues(c.deadlineMentions);
      stated := CollectValues(DeadlinesIn(w, c.title, text));
      var deadline := SettleOneClaim(reported, stated, LocatedFor(w, i, "deadline.date"), DeadlineComparator(w));
      out := RecordVerdicts(out, funding, deadline);
      SettledClaims(w, c, i, text);
    }

    /** An outcome for every candidate and one for the job. A page that was not read, or that describes no
        opportunity, settles both before anything else is looked at. */
    method Decide(pageUsable: Option<bool>, pageType: Option<PageType>, cs: seq<Candidate>)
      returns (out: seq<Candidate>, overall: Outcome)
      ensures (out, overall) == Verdicts(pageUsable, pageType, cs)
    {
      if pageUsable == Some(false) {
        return MarkAll(cs, MoreEvidenceRequired, SourceNotRetrieved), MoreEvidenceRequired;
      }
      var short := Policies.OutcomeForPageType(pageType);
      if short.Some? { return MarkAll(cs, short.value, NoFundingOpportunity), short.value; }
      out := [];
      for i := 0 to |cs|
        invariant |out| == i && forall k | 0 <= k < i :: out[k] == DecideOne(cs[k])
      {
        var outcome, reasons := Policies.Decide(cs[i]);
        out := out + [cs[i].(outcome := Some(outcome), reasons := cs[i].reasons + reasons)];
      }
      assert out == DecideAll(cs);
      overall := Policies.RollUp(out);
    }

    method RecordVerdicts(c: Candidate, funding: Settled, deadline: Settled) returns (out: Candidate)
      ensures out == SettleAgreement(c, funding, deadline)
    {
      var evidence := c.evidence;
      if funding.agrees == Some(true) && funding.value.Some? && funding.value.value != "" {
        evidence := evidence + [Agreement(Funding, funding.value.value, c.officialUrl, funding.confidence)];
      }
      assert evidence == c.evidence + ClaimEvidence(Funding, funding, c.officialUrl);
      if deadline.agrees == Some(true) && deadline.value.Some? && deadline.value.value != "" {
        evidence := evidence + [Agreement(Deadline, deadline.value.value, c.officialUrl, deadline.confidence)];
      }
      assert evidence == c.evidence + ClaimEvidence(Funding, funding, c.officialUrl)
                         + ClaimEvidence(Deadline, deadline, c.officialUrl);
      out := c.(evidence := evidence, amountAgrees := funding.agrees, deadlineAgrees := deadline.agrees);
    }

    method SettleOneClaim(reported: seq<string>, official: seq<string>, located: Located, cmp: Comparator)
      returns (s: Settled)
      ensures s == SettleClaim(reported, official, located, cmp)
    {
      var agrees, value := CompareSets(reported, official, cmp);
      if agrees.Some? { return Settled(agrees, value, Explicit); }
      agrees, value := CompareSets(AsList(located.0), AsList(located.1), cmp);
      s := Settled(agrees, value, ModelExtracted);
    }
  }

  // ---- The side table serves each candidate its own page ----

  lemma {:induction false} PutTextsGives(w: World, cs: seq<Candidate>, texts: Texts, i: nat)
    requires DistinctKeys(cs) && i < |cs|
    ensures TextOf(PutTexts(w, cs, texts), w.job, cs[i].key) ==
            if PageText(w, cs[i]).Some? then PageText(w, cs[i]) else TextOf(texts, w.job, cs[i].key)
  {
    var front := cs[..|cs| - 1];
    if i < |front| {
      PutTextsGives(w, front, texts, i);
    } else {
      PutTextsLeaves(w, front, texts, (w.job, cs[i].key));
    }
  }

  /** Entries of other jobs, and of keys no candidate has, are left alone. */
  lemma {:induction false} PutTextsLeaves(w: World, cs: seq<Candidate>, texts: Texts, at: (nat, string))
    requires at.0 != w.job || forall i | 0 <= i < |cs| :: cs[i].key != at.1
    ensures at in PutTexts(w, cs, texts) <==> at in texts
    ensures at in texts ==> PutTexts(w, cs, texts)[at] == texts[at]
  {
    if cs != [] { PutTextsLeaves(w, cs[..|cs| - 1], texts, at); }
  }

  lemma {:induction false} ComparePassTable(w: World, cs: seq<Candidate>, texts: Texts, at: (nat, string))
    ensures at in ComparePass(w, cs, texts).1 <==>
              at in texts && (at.0 != w.job || forall i | 0 <= i < |cs| :: cs[i].key != at.1)
    ensures at in ComparePass(w, cs, texts).1 ==> ComparePass(w, cs, texts).1[at] == texts[at]
  {
    if cs != [] {
      var front := cs[..|cs| - 1];
      ComparePassTable(w, front, texts, at);
      assert forall i | 0 <= i < |front| :: front[i] == cs[i];
    }
  }

  /** Because keys are distinct after deduplication, each official text is compared with its own candidate only. */
  lemma {:induction false} ComparePassIs(w: World, cs: seq<Candidate>, texts: Texts, i: nat)
    requires DistinctKeys(cs) && i < |cs|
    ensures ComparePass(w, cs, texts).0[i] == CompareOne(w, cs[i], i, TextOf(texts, w.job, cs[i].key))
  {
    var front := cs[..|cs| - 1];
    if i < |front| {
      ComparePassIs(w, front, texts, i);
    } else {
      ComparePassTable(w, front, texts, (w.job, cs[i].key));
      assert forall k | 0 <= k < |front| :: front[k].key != cs[i].key;
    }
  }
}
