/** Jobs that an interruption hurts, for any fetcher, model and text functions that read these few words as the program
    does. */
module ResumeExamples {
  import opened Wrappers
  import opened Candidates
  import opened Comparison
  import opened Dedupe
  import opened Nodes
  import opened Graph
  import opened OfficialSource
  import opened Policies
  import opened Resume
  import opened ResumeLimits
  import opened Strings
  import opened Urls
  import Extraction
  import FactMatching
  import Normalization

  const LISTING: Url := Url("https", "a.org", None, true, "/list", "")
  const FIRST_AWARD: Url := Url("https", "b.org", None, true, "/award", "")
  const SECOND_AWARD: Url := Url("https", "c.org", None, true, "/award", "")

  // ---- Hosts ----

  lemma {:induction false} NoSeparator(s: string, sep: char)
    requires sep !in s
    ensures Split(s, sep) == [s]
  {
    if s != "" {
      NoSeparator(s[1..], sep);
      assert s == [s[0]] + s[1..];
    }
  }

  lemma OrgHost(c: char)
    requires c != '.'
    ensures Registrable([c] + ".org") == [c] + ".org"
  {
    assert [c] + ".org" == [c] + ['.'] + "org";
    SplitHead([c], '.', "org");
    NoSeparator("org", '.');
    assert Split([c] + ".org", '.') == [[c], "org"];
  }

  lemma OtherDomain(page: Url, letter: char)
    requires page.host == [letter] + ".org" && letter !in ['.', 'a']
    ensures Registrable(page.host) == page.host && page.host != LISTING.host == Registrable(LISTING.host)
  {
    OrgHost(letter);
    OrgHost('a');
    assert LISTING.host == ['a'] + ".org";
    assert page.host[0] == letter && LISTING.host[0] == 'a';
  }

  lemma OtherPage(page: Url, letter: char)
    requires page.host == [letter] + ".org" && letter !in ['a', 'w']
    ensures !SamePage(page, LISTING)
  {
    assert page.host[0] == letter && LISTING.host[0] == 'a';
    assert RemovePrefix(LISTING.host, "www.") == LISTING.host && RemovePrefix(page.host, "www.") == page.host;
  }

  lemma LinkLeavesTheSource(w: World, c: Candidate, page: Url, letter: char)
    requires w.sourceUrl == LISTING && c.url == Some(page)
    requires page.host == [letter] + ".org" && letter !in ['.', 'a', 'w']
    ensures FindOne(w, c) == c.(officialUrl := Some(page))
  {
    OtherDomain(page, letter);
    OtherPage(page, letter);
  }

  // ---- Figures ----

  lemma LetterMatchesNothing(word: char -> bool, text: string, i: nat)
    requires i < |text| && ('a' <= text[i] <= 'z' || text[i] == ' ')
    ensures Extraction.MatchAt(word, text, i).None?
  {
    var s := text[i..];
    assert s[0] == text[i];
    if |s| >= 3 && Extraction.KnownCode(s[..3]) { Extraction.CodeStartsCapital(s); }
  }

  function Pounds(d: char): Extraction.Mention {
    Extraction.Mention(Extraction.SymbolBefore, FactMatching.POUND, "", [d], None)
  }

  lemma PoundsMatch(word: char -> bool, text: string, d: char)
    requires FactMatching.Digit(d) && |text| >= 2 && text[|text| - 2..] == FactMatching.POUND + [d]
    ensures Extraction.MatchAt(word, text, |text| - 2) == Some(Pounds(d))
    ensures Extraction.Render(Pounds(d)) == FactMatching.POUND + [d]
  {
    var s := text[|text| - 2..];
    assert s[..1] == FactMatching.POUND && s[1..] == [d];
    assert [d][1..] == "";
    assert [d][..1] == [d];
  }

  /** A title of one letter and a figure of one digit: the extractor finds that figure and nothing else. */
  lemma OneFigure(word: char -> bool, c: char, d: char)
    requires 'a' <= c <= 'z' && FactMatching.Digit(d)
    ensures Extraction.FundingMentions(word, [c] + " " + FactMatching.POUND + [d]) == [FactMatching.POUND + [d]]
  {
    var text := [c] + " " + FactMatching.POUND + [d];
    assert text[0] == c && text[1] == ' ' && text[2..] == FactMatching.POUND + [d] && |text| == 4;
    LetterMatchesNothing(word, text, 0);
    LetterMatchesNothing(word, text, 1);
    PoundsMatch(word, text, d);
    var at := Extraction.MatcherOf(word, text);
    assert at(0).None? && at(1).None? && at(2) == Some(FactMatching.POUND + [d]);
    assert Extraction.FindAll(at, 4, 4) == [];
    assert Extraction.FindAll(at, 4, 2) == [FactMatching.POUND + [d]];
    assert Extraction.FindAll(at, 4, 1) == Extraction.FindAll(at, 4, 2);
  }

  lemma FiguresDiffer()
    ensures FactMatching.AmountsMatch(FactMatching.POUND + "5", FactMatching.POUND + "6") == Some(false)
  {
    var five, six := Pounds('5'), Pounds('6');
    Extraction.AgreeIff(five, six);
    assert Extraction.Render(five) == FactMatching.POUND + "5" && Extraction.Render(six) == FactMatching.POUND + "6";
    assert FactMatching.DropLeadingZeros(FactMatching.DropCommas("5")) == "5";
    assert FactMatching.DropLeadingZeros(FactMatching.DropCommas("6")) == "6";
  }

  lemma OneValue(s: string)
    requires s != ""
    ensures Values([s]) == [s]
  {
    assert [s][..0] == [];
  }

  /** An award listed at five pounds whose own page says six. */
  ghost predicate FiveAgainstSix(w: World, c: Candidate, letter: char) {
    && 'a' <= letter <= 'z' && c.title == [letter]
    && c.fundingMentions == FundingIn(w, c.title, FactMatching.POUND + "5")
  }

  lemma FiveIsNotSix(w: World, c: Candidate, i: nat, letter: char)
    requires FiveAgainstSix(w, c, letter)
    ensures FundingContradicted(w, c, i, FactMatching.POUND + "6")
  {
    var five, six := FactMatching.POUND + "5", FactMatching.POUND + "6";
    assert JoinText([letter], five) == [letter] + " " + FactMatching.POUND + ['5'];
    assert JoinText([letter], six) == [letter] + " " + FactMatching.POUND + ['6'];
    OneFigure(w.wordChar, letter, '5');
    OneFigure(w.wordChar, letter, '6');
    OneValue(five);
    OneValue(six);
    FiguresDiffer();
    assert AmountComparator()(five, six) == Some(false);
  }

  // ---- What is found on a listing ----

  lemma FoundOnListing(w: World, i: nat)
    requires DistinctKeys(Starting(w)) && i < |Starting(w)|
    ensures |Found(w)| == |Starting(w)| && Found(w)[i] == FindOne(w, ExtractOne(w, Starting(w)[i], i))
  {
    DistinctUnchanged(Starting(w));
    assert Deduped(Starting(w)) == Starting(w);
  }

  /** A candidate as listed, on its way to the fetch, with a link that leaves the source. */
  lemma ListedIsFound(w: World, c: Candidate, i: nat, page: Url, letter: char)
    requires w.sourceUrl == LISTING && c.url == Some(page)
    requires page.host == [letter] + ".org" && letter !in ['.', 'a', 'w']
    ensures var d := FindOne(w, ExtractOne(w, c, i));
            && d.officialUrl == Some(page) && d.title == c.title
            && d.fundingMentions == FundingIn(w, c.title, c.excerpt)
            && d.deadlineMentions == DeadlinesIn(w, c.title, c.excerpt)
  {
    LinkLeavesTheSource(w, ExtractOne(w, c, i), page, letter);
  }

  /** The same, by its place on the listing. */
  lemma EntryIsFound(w: World, i: nat, page: Url, letter: char)
    requires DistinctKeys(Starting(w)) && i < |Starting(w)|
    requires w.sourceUrl == LISTING && Starting(w)[i].url == Some(page)
    requires page.host == [letter] + ".org" && letter !in ['.', 'a', 'w']
    ensures |Found(w)| == |Starting(w)|
    ensures var c, d := Starting(w)[i], Found(w)[i];
            && d.officialUrl == Some(page) && d.title == c.title
            && d.fundingMentions == FundingIn(w, c.title, c.excerpt)
            && d.deadlineMentions == DeadlinesIn(w, c.title, c.excerpt)
  {
    FoundOnListing(w, i);
    ListedIsFound(w, Starting(w)[i], i, page, letter);
  }

  /** A listing whose one award is contradicted by its own page. Everything about text is the given world's. */
  function ContradictedJob(text: World): World {
    text.(sourceUrl := LISTING, pageUsable := true, classification := Some(ListPage),
          split := SplitInto([SplitItem("t", Some(FIRST_AWARD), FactMatching.POUND + "5")]),
          official := (u: Url) => Some(FactMatching.POUND + "6"))
  }

  lemma ContradictedStarts(w: World, text: World)
    requires text.stripOrdinal("t") == "t" && w == ContradictedJob(text)
    ensures Starting(w) == [NewCandidate("t", KeyOf(w, "t"), Some(FIRST_AWARD), FactMatching.POUND + "5", None)]
  {
    var items := [SplitItem("t", Some(FIRST_AWARD), FactMatching.POUND + "5")];
    assert items[1..] == [] && FromItems(w, []) == [];
    assert FromItems(w, items) == [NewCandidate("t", KeyOf(w, "t"), Some(FIRST_AWARD), FactMatching.POUND + "5", None)];
  }

  lemma TheAwardIsFound(w: World, text: World)
    requires text.stripOrdinal("t") == "t" && w == ContradictedJob(text)
    ensures |Found(w)| == 1 && Found(w)[0].officialUrl == Some(FIRST_AWARD) && FiveAgainstSix(w, Found(w)[0], 't')
  {
    ContradictedStarts(w, text);
    assert FIRST_AWARD.host == ['b'] + ".org";
    EntryIsFound(w, 0, FIRST_AWARD, 'b');
  }

  lemma TheAwardIsContradicted(w: World, text: World)
    requires text.stripOrdinal("t") == "t" && w == ContradictedJob(text)
    ensures |Found(w)| == 1 && PageContradicts(w, 0)
  {
    TheAwardIsFound(w, text);
    ContradictedByPage(w, 0, 't');
  }

  lemma ContradictedByPage(w: World, i: nat, letter: char)
    requires i < |Found(w)| && Found(w)[i].officialUrl.Some? && FiveAgainstSix(w, Found(w)[i], letter)
    requires w.official(Found(w)[i].officialUrl.value) == Some(FactMatching.POUND + "6")
    ensures PageContradicts(w, i)
  {
    FiveIsNotSix(w, Found(w)[i], i, letter);
    ContradictedBy(w, i, FactMatching.POUND + "6");
  }

  lemma ContradictedIsRejected(w: World, text: World)
    requires text.stripOrdinal("t") == "t" && w == ContradictedJob(text)
    ensures Examined(w) && |Found(w)| == 1 && HasText(w, 0) && At(w, End).outcome == Some(RejectRecommended)
  {
    TheAwardIsContradicted(w, text);
    RejectedAlone(w);
    TheAwardIsFound(w, text);
    TextThere(w, 0, FactMatching.POUND + "6");
  }

  lemma RejectedAlone(w: World)
    requires Examined(w) && |Found(w)| == 1 && PageContradicts(w, 0)
    ensures At(w, End).outcome == Some(RejectRecommended)
  {
    JudgedOutcome(w, 0);
    RejectIff(w);
  }

  /** The comment beside the table says that losing it is fine, since the resumed run re-fetches. It does not. Here an
      award is listed at one figure and its own page states another: the uninterrupted run rejects, and a run cut short
      before the comparison ends asking for more evidence. */
  lemma LosingTheTableIsNotFine(text: World) returns (w: World, es: seq<Event>)
    requires text.stripOrdinal("t") == "t"
    ensures w == ContradictedJob(text) && At(w, End).outcome == Some(RejectRecommended)
    ensures ValidRun(w, es) && Run(w, es).node == End && Run(w, es).st.outcome == Some(MoreEvidenceRequired)
  {
    w := ContradictedJob(text);
    ContradictedIsRejected(w, text);
    es := AnyLossHappens(w, {0});
    OneLeft(w, es);
  }

  lemma OneLeft(w: World, es: seq<Event>)
    requires Examined(w) && |Found(w)| == 1 && ValidRun(w, es) && Run(w, es).node == End && 0 in Run(w, es).lost
    ensures Run(w, es).st.outcome == Some(MoreEvidenceRequired)
  {
    RunKeepsInv(w, es);
    var lost := Run(w, es).lost;
    assert Partly(w, lost) == Fetched(w) by { assert Partly(w, lost)[0] == Fetched(w)[0]; }
    AllForgotten(w, lost);
  }

  // ---- A review that disappears ----

  const DATE: string := "1 May 2026"

  function Dated(): string {
    FactMatching.POUND + "5 " + DATE
  }

  /** Two awards: the first agrees with its page on both claims but has no eligibility rules, so it needs review; the
      second is contradicted by its page. */
  function MixedJob(text: World): World {
    text.(sourceUrl := LISTING, pageUsable := true, classification := Some(ListPage),
          split := SplitInto([SplitItem("t", Some(FIRST_AWARD), Dated()),
                              SplitItem("u", Some(SECOND_AWARD), FactMatching.POUND + "5")]),
          official := (u: Url) => Some(if u == FIRST_AWARD then Dated() else FactMatching.POUND + "6"),
          rules := (i: nat) => RulesUnavailable)
  }

  /** What the text functions must make of these few words: titles stay as they are, and the date is a date. */
  ghost predicate ReadsPlainly(text: World) {
    && text.stripOrdinal("t") == "t" && text.stripOrdinal("u") == "u"
    && text.clean("t") == "t" && text.clean("u") == "u"
    && text.deadlines("t " + Dated()) == [DATE] && text.parseDeadline(DATE).Some?
  }

  lemma LetterTokens(c: char)
    requires 'a' <= c <= 'z'
    ensures Normalization.Tokens(" " + [c]) == [[c]]
  {
    var s := " " + [c];
    assert s[0] == ' ' && s[1..] == [c];
    assert Normalization.Run([c][1..]) == 0;
    assert [c][..1] == [c] && [c][1..] == "";
    assert Normalization.Tokens("") == [];
  }

  lemma KeysDiffer(w: World)
    requires w.clean("t") == "t" && w.clean("u") == "u"
    ensures KeyOf(w, "t") != KeyOf(w, "u")
  {
    LetterTokens('t');
    LetterTokens('u');
    assert " " + "t" == " " + ['t'] && " " + "u" == " " + ['u'];
    Normalization.KeysEqualIff(" t", " u");
    assert "t" in Normalization.Members([['t']]) && "t" !in Normalization.Members([['u']]);
  }

  lemma MixedStarts(w: World, text: World)
    requires ReadsPlainly(text) && w == MixedJob(text)
    ensures Starting(w) == [NewCandidate("t", KeyOf(w, "t"), Some(FIRST_AWARD), Dated(), None),
                            NewCandidate("u", KeyOf(w, "u"), Some(SECOND_AWARD), FactMatching.POUND + "5", None)]
    ensures DistinctKeys(Starting(w))
  {
    var first := SplitItem("t", Some(FIRST_AWARD), Dated());
    var second := SplitItem("u", Some(SECOND_AWARD), FactMatching.POUND + "5");
    assert [first, second][1..] == [second] && [second][1..] == [];
    assert FromItems(w, []) == [];
    assert FromItems(w, [second]) ==
           [NewCandidate("u", KeyOf(w, "u"), Some(SECOND_AWARD), FactMatching.POUND + "5", None)];
    KeysDiffer(w);
  }

  lemma SecondIsFound(w: World, text: World)
    requires ReadsPlainly(text) && w == MixedJob(text)
    ensures |Found(w)| == 2 && Found(w)[1].officialUrl == Some(SECOND_AWARD) && FiveAgainstSix(w, Found(w)[1], 'u')
  {
    MixedStarts(w, text);
    assert SECOND_AWARD.host == ['c'] + ".org";
    EntryIsFound(w, 1, SECOND_AWARD, 'c');
  }

  lemma SecondIsContradicted(w: World, text: World)
    requires ReadsPlainly(text) && w == MixedJob(text)
    ensures |Found(w)| == 2 && PageContradicts(w, 1)
  {
    SecondIsFound(w, text);
    assert SECOND_AWARD.host[0] == 'c' && FIRST_AWARD.host[0] == 'b';
    ContradictedByPage(w, 1, 'u');
  }

  /** The dated excerpt states its figure, whatever else it may be read to state. */
  lemma DatedStatesFive(word: char -> bool) returns (mention: string)
    ensures mention in Extraction.FundingMentions(word, "t " + Dated())
  {
    var text := "t " + Dated();
    LetterMatchesNothing(word, text, 0);
    LetterMatchesNothing(word, text, 1);
    var five := Pounds('5');
    assert Extraction.Render(five) == FactMatching.POUND + "5";
    assert text[2..4] == FactMatching.POUND + "5";
    Extraction.MentionsComplete(word, text, 2, five);
    mention :| mention in Extraction.FundingMentions(word, text);
  }

  lemma FirstIsFound(w: World, text: World)
    requires ReadsPlainly(text) && w == MixedJob(text)
    ensures |Found(w)| == 2 && PageRead(w, 0, Dated())
    ensures var c := Found(w)[0];
            && c.title == "t"
            && c.fundingMentions == FundingIn(w, "t", Dated()) && c.deadlineMentions == DeadlinesIn(w, "t", Dated())
  {
    MixedStarts(w, text);
    assert FIRST_AWARD.host == ['b'] + ".org";
    EntryIsFound(w, 0, FIRST_AWARD, 'b');
  }

  lemma FirstFundingCorroborated(w: World, c: Candidate)
    requires c.title == "t" && c.fundingMentions == FundingIn(w, "t", Dated())
    ensures FundingCorroborated(w, c, 0, Dated())
  {
    assert JoinText("t", Dated()) == "t " + Dated();
    var mention := DatedStatesFive(w.wordChar);
    Extraction.MentionsSound(w.wordChar, "t " + Dated(), mention);
    assert Alike(FactMatching.ParseAmount(mention), FactMatching.ParseAmount(mention));
  }

  lemma FirstDeadlineCorroborated(w: World, c: Candidate)
    requires c.title == "t" && c.deadlineMentions == DeadlinesIn(w, "t", Dated())
    requires w.deadlines("t " + Dated()) == [DATE] && w.parseDeadline(DATE).Some?
    ensures DeadlineCorroborated(w, c, 0, Dated())
  {
    assert JoinText("t", Dated()) == "t " + Dated();
    assert DATE in c.deadlineMentions && DATE in w.deadlines(Titled("t", Dated()));
    assert Alike(w.parseDeadline(DATE), w.parseDeadline(DATE));
  }

  lemma FirstNeedsReview(w: World, text: World)
    requires ReadsPlainly(text) && w == MixedJob(text)
    ensures |Found(w)| == 2 && NeedsReview(w, 0)
  {
    FirstIsFound(w, text);
    FirstFundingCorroborated(w, Found(w)[0]);
    FirstDeadlineCorroborated(w, Found(w)[0]);
    CorroboratedBy(w, 0, Dated());
  }

  lemma UninterruptedReviews(w: World, text: World)
    requires ReadsPlainly(text) && w == MixedJob(text)
    ensures Examined(w) && HasText(w, 0) && At(w, End).outcome == Some(ReviewRequired)
  {
    FirstNeedsReview(w, text);
    FirstIsFound(w, text);
    ReviewedWhenKept(w, 0);
    TextThere(w, 0, Dated());
  }

  lemma TextThere(w: World, i: nat, text: string)
    requires i < |Found(w)| && PageRead(w, i, text)
    ensures HasText(w, i)
  {
    PageIs(w, i);
  }

  lemma ReviewedWhenKept(w: World, i: nat)
    requires Examined(w) && i < |Found(w)| && NeedsReview(w, i)
    ensures At(w, End).outcome == Some(ReviewRequired)
  {
    assert i !in {} && NeedsReview(w, i);
    assert SomeKeptReview(w, {});
    JobOutcomeWith(w, {});
  }

  lemma SecondKept(w: World)
    requires |Found(w)| == 2 && PageContradicts(w, 1)
    ensures SomeKeptContradicted(w, {0})
  {
    var i := 1;
    assert i !in {0} && PageContradicts(w, i);
  }

  lemma NoReviewKept(w: World)
    requires |Found(w)| == 2 && !NeedsReview(w, 1)
    ensures !SomeKeptReview(w, {0})
  {
    forall i | 0 <= i < |Found(w)| && i !in {0} ensures !NeedsReview(w, i) {
      assert i == 1;
    }
  }

  lemma OnlySecondKept(w: World, text: World)
    requires ReadsPlainly(text) && w == MixedJob(text)
    ensures SomeKeptContradicted(w, {0}) && !SomeKeptReview(w, {0})
  {
    SecondIsContradicted(w, text);
    ContradictedNeedsNoReview(w, 1);
    SecondKept(w);
    NoReviewKept(w);
  }

  lemma KeptRejects(w: World, lost: set<nat>)
    requires Examined(w) && SomeKeptContradicted(w, lost) && !SomeKeptReview(w, lost)
    ensures AtWith(w, End, lost).outcome == Some(RejectRecommended)
  {
    JobOutcomeWith(w, lost);
  }

  /** Losing one text can also make a human review disappear: the uninterrupted run asks for review, and a run that
      loses only the first award's text ends rejected. */
  lemma LostTextHidesReview(text: World) returns (w: World, es: seq<Event>)
    requires ReadsPlainly(text)
    ensures w == MixedJob(text) && At(w, End).outcome == Some(ReviewRequired)
    ensures ValidRun(w, es) && Run(w, es).node == End && Run(w, es).lost == {0}
    ensures Run(w, es).st.outcome == Some(RejectRecommended)
  {
    w := MixedJob(text);
    UninterruptedReviews(w, text);
    OnlyFirstLost(w, text);
    es := AnyLossHappens(w, {0});
  }

  lemma OnlyFirstLost(w: World, text: World)
    requires ReadsPlainly(text) && w == MixedJob(text)
    ensures AtWith(w, End, {0}).outcome == Some(RejectRecommended)
  {
    OnlySecondKept(w, text);
    KeptRejects(w, {0});
  }
}
