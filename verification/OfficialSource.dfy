/** Choosing an official page out of search results. Hosts are as `urlsplit` gives them: lower-case, "" for none. */
module OfficialSource {
  import opened Wrappers
  import opened Strings
  import opened Urls
  import Normalization

  /** Host labels that identify nobody. */
  predicate NonDistinctiveLabel(part: string) {
    OneOf(part,
     ["www", "www1", "www2", "www3", "web", "ac", "edu", "gov", "co", "com", "org", "net", "int"])
  }

  /** Title words that identify no particular provider. */
  const GENERIC_TITLE_WORDS: seq<string> :=
    ["scholarship", "scholarships", "scholar", "scholars", "fellowship", "fellowships", "bursary", "bursaries",
     "grant", "grants", "award", "awards", "prize", "prizes", "funding", "funded", "fully", "full", "free", "study",
     "studies", "student", "students", "international", "global", "abroad", "overseas", "foreign", "university",
     "universities", "college", "school", "institute", "academy", "faculty", "master", "masters", "bachelor",
     "bachelors", "doctoral", "doctorate", "phd", "mba", "msc", "undergraduate", "postgraduate", "graduate",
     "program", "programme", "programs", "programmes", "course", "courses", "degree", "degrees", "apply",
     "application", "applications", "deadline", "deadlines", "online", "list", "best", "top", "latest",
     "opportunity", "opportunities"]

  predicate GenericTitleWord(word: string) {
    OneOf(word, GENERIC_TITLE_WORDS)
  }

  const MIN_MATCH_CHARS: nat := 4

  /** Labels marking a government or academic body. */
  predicate PublicBodyLabel(part: string) {
    OneOf(part,
     ["gov", "edu", "ac", "gc", "go", "mil", "int", "admin"])
  }

  predicate PublicBodyTld(part: string) {
    OneOf(part,
     ["edu", "gov", "int", "mil"])
  }

  datatype SearchResult = SearchResult(title: string, url: Url, description: string)

  function Parts(host: string): seq<string> {
    NonEmpty(Split(host, '.'))
  }

  /** A government or an academic institution. */
  predicate IsPublicBody(host: string) {
    var parts := Parts(host);
    && |parts| >= 2
    && (PublicBodyTld(parts[|parts| - 1]) || EndsWith(host, "europa.eu")
        || exists i | 1 <= i < |parts| - 1 :: PublicBodyLabel(parts[i]))
  }

  /** The parts of a host that could name somebody. */
  function HostLabels(host: string): set<string> {
    var parts := Parts(host);
    if |parts| < 2 then {} else set p | p in parts[..|parts| - 1] && !NonDistinctiveLabel(p)
  }

  predicate AllDigits(s: string) {
    forall i | 0 <= i < |s| :: '0' <= s[i] <= '9'
  }

  /** The words of a (folded, lower-cased) title that could name a provider. */
  function DistinctiveWords(folded: string): set<string> {
    set w | w in Normalization.Tokens(folded) && |w| >= MIN_MATCH_CHARS && !GenericTitleWord(w) && !AllDigits(w)
  }

  /** One is a prefix of the other, and neither is too short to mean anything. */
  predicate NamesMatch(word: string, name: string) {
    if |word| < MIN_MATCH_CHARS || |name| < MIN_MATCH_CHARS then word == name && |word| >= MIN_MATCH_CHARS
    else StartsWith(word, name) || StartsWith(name, word)
  }

  lemma NamesMatchSymmetric(a: string, b: string)
    ensures NamesMatch(a, b) <==> NamesMatch(b, a)
    ensures NamesMatch(a, b) ==> |a| >= MIN_MATCH_CHARS && |b| >= MIN_MATCH_CHARS
  {
  }

  /** What the search may choose from: a web page on a host that names somebody other than the source. */
  predicate Usable(r: SearchResult, sourceLabels: set<string>, excludedHosts: set<string>) {
    && r.url.scheme in ["http", "https"]
    && r.url.host != ""
    && r.url.host !in excludedHosts
    && HostLabels(r.url.host) != {}
    && HostLabels(r.url.host) * sourceLabels == {}
  }

  predicate Named(r: SearchResult, words: set<string>) {
    exists w, l | w in words && l in HostLabels(r.url.host) :: NamesMatch(w, l)
  }

  type Test = SearchResult -> bool

  function Filter(p: Test, rs: seq<SearchResult>): seq<SearchResult> {
    if rs == [] then [] else (if p(rs[0]) then [rs[0]] else []) + Filter(p, rs[1..])
  }

  /** Where the first one that passes stands; the length when none does. */
  function First(p: Test, rs: seq<SearchResult>): (i: nat)
    ensures i <= |rs|
    ensures i < |rs| ==> p(rs[i])
    ensures forall k | 0 <= k < i :: !p(rs[k])
  {
    if rs == [] || p(rs[0]) then 0 else 1 + First(p, rs[1..])
  }

  function UsableTest(sourceLabels: set<string>, excludedHosts: set<string>): Test {
    (r: SearchResult) => Usable(r, sourceLabels, excludedHosts)
  }

  function UsableOf(results: seq<SearchResult>, sourceLabels: set<string>, excludedHosts: set<string>)
    : seq<SearchResult>
  {
    Filter(UsableTest(sourceLabels, excludedHosts), results)
  }

  function FirstNamed(usable: seq<SearchResult>, words: set<string>): (i: nat)
    ensures i <= |usable|
    ensures i < |usable| ==> Named(usable[i], words)
    ensures forall k | 0 <= k < i :: !Named(usable[k], words)
  {
    First((r: SearchResult) => Named(r, words), usable)
  }

  function FirstPublic(usable: seq<SearchResult>): (i: nat)
    ensures i <= |usable|
    ensures i < |usable| ==> IsPublicBody(usable[i].url.host)
    ensures forall k | 0 <= k < i :: !IsPublicBody(usable[k].url.host)
  {
    First((r: SearchResult) => IsPublicBody(r.url.host), usable)
  }

  function PickFrom(words: set<string>, usable: seq<SearchResult>): Option<SearchResult> {
    var named := FirstNamed(usable, words);
    if named == |usable| then None
    else
      var public := FirstPublic(usable[..named]);
      Some(if public < named then usable[public] else usable[named])
  }

  /** Acceptance is by name alone; a public body ranked above the first named result is preferred to it. */
  function PickOfficial(folded: string, results: seq<SearchResult>, sourceLabels: set<string>,
                        excludedHosts: set<string>)
    : Option<SearchResult>
  {
    var words := DistinctiveWords(folded);
    if words == {} then None else PickFrom(words, UsableOf(results, sourceLabels, excludedHosts))
  }

  // ---- What is picked ----

  lemma {:induction false} FilterMembers(p: Test, rs: seq<SearchResult>)
    ensures forall r :: r in Filter(p, rs) <==> r in rs && p(r)
  {
    if rs != [] { FilterMembers(p, rs[1..]); }
  }

  function Passing(p: Test, r: SearchResult): seq<SearchResult> {
    if p(r) then [r] else []
  }

  lemma FilterStep(p: Test, rs: seq<SearchResult>)
    requires rs != []
    ensures Filter(p, rs) == Passing(p, rs[0]) + Filter(p, rs[1..])
  {
  }

  lemma {:induction false} FilterConcat(p: Test, a: seq<SearchResult>, b: seq<SearchResult>)
    ensures Filter(p, a + b) == Filter(p, a) + Filter(p, b)
  {
    if a == [] {
      assert a + b == b;
    } else {
      FilterConcat(p, a[1..], b);
      assert (a + b)[1..] == a[1..] + b && (a + b)[0] == a[0];
      FilterStep(p, a + b);
      FilterStep(p, a);
      Associative(Passing(p, a[0]), Filter(p, a[1..]), Filter(p, b));
    }
  }

  lemma UsableOfMembers(results: seq<SearchResult>, sourceLabels: set<string>, excludedHosts: set<string>)
    ensures forall r :: r in UsableOf(results, sourceLabels, excludedHosts) <==>
              r in results && Usable(r, sourceLabels, excludedHosts)
  {
    FilterMembers(UsableTest(sourceLabels, excludedHosts), results);
  }

  lemma UsableOfConcat(a: seq<SearchResult>, b: seq<SearchResult>, sourceLabels: set<string>,
                       excludedHosts: set<string>)
    ensures UsableOf(a + b, sourceLabels, excludedHosts) ==
            UsableOf(a, sourceLabels, excludedHosts) + UsableOf(b, sourceLabels, excludedHosts)
  {
    FilterConcat(UsableTest(sourceLabels, excludedHosts), a, b);
  }

  /** A non-empty piece of a host with another non-empty one after it. */
  ghost predicate BeforeLast(pieces: seq<string>, tag: string) {
    && tag != ""
    && exists i, j | 0 <= i < j < |pieces| :: pieces[i] == tag && pieces[j] != ""
  }

  /** A piece of a host that could name somebody: not the last one, and not one that everybody has. */
  ghost predicate NamingLabel(host: string, tag: string) {
    BeforeLast(Split(host, '.'), tag) && !NonDistinctiveLabel(tag)
  }

  /** A word of a title that could name somebody. */
  ghost predicate NamingWord(folded: string, word: string) {
    && (exists i, j | 0 <= i < j <= |folded| && Normalization.MaximalRun(folded, i, j) :: folded[i..j] == word)
    && |word| >= 4 && !GenericTitleWord(word) && exists k | 0 <= k < |word| :: !('0' <= word[k] <= '9')
  }

  /** Both are four letters or more, and one begins with the other. */
  ghost predicate BeginAlike(word: string, tag: string) {
    |word| >= 4 && |tag| >= 4 && (word <= tag || tag <= word)
  }

  /** One of the award's words and one of the host's labels begin with one another. */
  ghost predicate CarriesName(host: string, folded: string) {
    exists word, tag | NamingWord(folded, word) && NamingLabel(host, tag) :: BeginAlike(word, tag)
  }

  /** A web page of somebody other than the source and on no excluded host, one of whose labels and one of the award's
      words begin with one another. */
  ghost predicate Suits(r: SearchResult, folded: string, sourceLabels: set<string>, excludedHosts: set<string>) {
    && r.url.scheme in ["http", "https"] && r.url.host !in excludedHosts
    && (forall tag | NamingLabel(r.url.host, tag) :: tag !in sourceLabels)
    && CarriesName(r.url.host, folded)
  }

  lemma {:induction false} NonEmptyIs(parts: seq<string>) returns (at: seq<nat>)
    ensures Picked(NonEmpty(parts), parts, at)
    ensures forall i | 0 <= i < |parts| :: i in at <==> parts[i] != ""
  {
    if parts == [] {
      at := [];
    } else {
      var rest := NonEmptyIs(parts[1..]);
      at := InFront(parts[0] != "", rest);
      PickedInFront(NonEmpty(parts[1..]), parts[1..], rest, parts[0], parts[0] != "");
      assert parts == [parts[0]] + parts[1..];
      forall i | 0 <= i < |parts| ensures i in at <==> parts[i] != "" { InFrontHas(parts[0] != "", rest, i); }
    }
  }

  lemma BeforeLastIff(pieces: seq<string>, parts: seq<string>, at: seq<nat>, tag: string)
    requires Picked(parts, pieces, at) && forall i | 0 <= i < |pieces| :: i in at <==> pieces[i] != ""
    ensures BeforeLast(pieces, tag) <==> exists k | 0 <= k < |parts| - 1 :: parts[k] == tag
  {
    forall k | 0 <= k < |parts| - 1 && parts[k] == tag ensures BeforeLast(pieces, tag) {
      assert at[k] in at && at[|at| - 1] in at && at[k] < at[|at| - 1];
      assert pieces[at[k]] == tag && pieces[at[|at| - 1]] != "";
    }
    if BeforeLast(pieces, tag) {
      var i, j :| 0 <= i < j < |pieces| && pieces[i] == tag && pieces[j] != "";
      assert i in at && j in at;
      var k :| 0 <= k < |at| && at[k] == i;
      var l :| 0 <= l < |at| && at[l] == j;
      assert k < l && parts[k] == tag;
    }
  }

  lemma HostLabelsHas(host: string, tag: string)
    ensures tag in HostLabels(host) <==>
            (exists k | 0 <= k < |Parts(host)| - 1 :: Parts(host)[k] == tag) && !NonDistinctiveLabel(tag)
  {
    var parts := Parts(host);
    if |parts| >= 2 {
      assert tag in parts[..|parts| - 1] <==> exists k | 0 <= k < |parts| - 1 :: parts[k] == tag;
    }
  }

  lemma NamingLabelIff(host: string, tag: string)
    ensures tag in HostLabels(host) <==> NamingLabel(host, tag)
  {
    var at := NonEmptyIs(Split(host, '.'));
    BeforeLastIff(Split(host, '.'), Parts(host), at, tag);
    HostLabelsHas(host, tag);
  }

  lemma NamingWordIff(folded: string, word: string)
    ensures word in DistinctiveWords(folded) <==> NamingWord(folded, word)
  {
    Normalization.TokenIff(folded, word);
  }

  lemma MatchCarries(host: string, folded: string, word: string, tag: string)
    requires word in DistinctiveWords(folded) && tag in HostLabels(host) && NamesMatch(word, tag)
    ensures NamingWord(folded, word) && NamingLabel(host, tag) && BeginAlike(word, tag)
  {
    NamingLabelIff(host, tag);
    NamingWordIff(folded, word);
  }

  lemma CarriesMatch(host: string, folded: string, word: string, tag: string)
    requires NamingWord(folded, word) && NamingLabel(host, tag) && BeginAlike(word, tag)
    ensures word in DistinctiveWords(folded) && tag in HostLabels(host) && NamesMatch(word, tag)
  {
    NamingLabelIff(host, tag);
    NamingWordIff(folded, word);
  }

  lemma NamedCarries(r: SearchResult, folded: string)
    requires Named(r, DistinctiveWords(folded))
    ensures CarriesName(r.url.host, folded)
  {
    var word, tag :| word in DistinctiveWords(folded) && tag in HostLabels(r.url.host) && NamesMatch(word, tag);
    MatchCarries(r.url.host, folded, word, tag);
  }

  lemma CarriesNamed(r: SearchResult, folded: string)
    requires CarriesName(r.url.host, folded)
    ensures Named(r, DistinctiveWords(folded)) && HostLabels(r.url.host) != {}
  {
    var word, tag :| NamingWord(folded, word) && NamingLabel(r.url.host, tag) && BeginAlike(word, tag);
    CarriesMatch(r.url.host, folded, word, tag);
  }

  lemma StrangersOnly(host: string, sourceLabels: set<string>)
    ensures HostLabels(host) * sourceLabels == {} <==> forall tag | NamingLabel(host, tag) :: tag !in sourceLabels
    ensures HostLabels(host) != {} <==> exists tag :: NamingLabel(host, tag)
    ensures HostLabels(host) != {} ==> host != ""
  {
    var labels := HostLabels(host);
    forall tag ensures tag in labels <==> NamingLabel(host, tag) { NamingLabelIff(host, tag); }
    assert forall tag | tag in labels && tag in sourceLabels :: tag in labels * sourceLabels;
    if labels != {} {
      var tag :| tag in labels;
      assert NamingLabel(host, tag);
    }
  }

  lemma SuitsIff(r: SearchResult, folded: string, sourceLabels: set<string>, excludedHosts: set<string>)
    ensures Suits(r, folded, sourceLabels, excludedHosts) <==>
            Usable(r, sourceLabels, excludedHosts) && Named(r, DistinctiveWords(folded))
  {
    StrangersOnly(r.url.host, sourceLabels);
    if CarriesName(r.url.host, folded) { CarriesNamed(r, folded); }
    if Named(r, DistinctiveWords(folded)) { NamedCarries(r, folded); }
  }

  lemma NamedIsPicked(words: set<string>, usable: seq<SearchResult>, i: nat)
    requires i < |usable| && Named(usable[i], words)
    ensures words != {} && PickFrom(words, usable).Some?
  {
    assert FirstNamed(usable, words) <= i;
  }

  lemma SuitableIsPicked(folded: string, results: seq<SearchResult>, r: SearchResult, sourceLabels: set<string>,
                         excludedHosts: set<string>)
    requires r in results && Suits(r, folded, sourceLabels, excludedHosts)
    ensures PickOfficial(folded, results, sourceLabels, excludedHosts).Some?
  {
    SuitsIff(r, folded, sourceLabels, excludedHosts);
    UsableOfMembers(results, sourceLabels, excludedHosts);
    var usable := UsableOf(results, sourceLabels, excludedHosts);
    assert r in usable;
    var i :| 0 <= i < |usable| && usable[i] == r;
    NamedIsPicked(DistinctiveWords(folded), usable, i);
  }

  lemma PickedSuits(folded: string, results: seq<SearchResult>, sourceLabels: set<string>, excludedHosts: set<string>)
    returns (r: SearchResult)
    requires PickOfficial(folded, results, sourceLabels, excludedHosts).Some?
    ensures r in results && Suits(r, folded, sourceLabels, excludedHosts)
  {
    UsableOfMembers(results, sourceLabels, excludedHosts);
    var usable := UsableOf(results, sourceLabels, excludedHosts);
    r := usable[FirstNamed(usable, DistinctiveWords(folded))];
    assert r in usable;
    SuitsIff(r, folded, sourceLabels, excludedHosts);
  }

  /** Nothing is picked exactly when no usable result carries the award's name. */
  lemma PickNoneIff(folded: string, results: seq<SearchResult>, sourceLabels: set<string>, excludedHosts: set<string>)
    ensures PickOfficial(folded, results, sourceLabels, excludedHosts).None? <==>
            !exists r :: r in results && Suits(r, folded, sourceLabels, excludedHosts)
  {
    if PickOfficial(folded, results, sourceLabels, excludedHosts).Some? {
      var r := PickedSuits(folded, results, sourceLabels, excludedHosts);
    }
    forall r | r in results && Suits(r, folded, sourceLabels, excludedHosts)
      ensures PickOfficial(folded, results, sourceLabels, excludedHosts).Some?
    {
      SuitableIsPicked(folded, results, r, sourceLabels, excludedHosts);
    }
  }

  lemma PickFromIs(words: set<string>, usable: seq<SearchResult>) returns (named: nat, chosen: nat)
    requires PickFrom(words, usable).Some?
    ensures chosen <= named < |usable| && PickFrom(words, usable).value == usable[chosen]
    ensures Named(usable[named], words) && forall k | 0 <= k < named :: !Named(usable[k], words)
    ensures forall k | 0 <= k < chosen :: !IsPublicBody(usable[k].url.host)
    ensures chosen < named ==> IsPublicBody(usable[chosen].url.host)
  {
    named := FirstNamed(usable, words);
    chosen := FirstPublic(usable[..named]);
    assert forall k | 0 <= k < named :: usable[..named][k] == usable[k];
  }

  lemma {:induction false} FilterKeeps(p: Test, rs: seq<SearchResult>) returns (at: seq<nat>)
    ensures Picked(Filter(p, rs), rs, at)
    ensures forall i | 0 <= i < |rs| :: i in at <==> p(rs[i])
  {
    if rs == [] {
      at := [];
    } else {
      var rest := FilterKeeps(p, rs[1..]);
      at := InFront(p(rs[0]), rest);
      PickedInFront(Filter(p, rs[1..]), rs[1..], rest, rs[0], p(rs[0]));
      assert rs == [rs[0]] + rs[1..];
      forall i | 0 <= i < |rs| ensures i in at <==> p(rs[i]) { InFrontHas(p(rs[0]), rest, i); }
    }
  }

  /** A web page of somebody other than the source, on no excluded host. */
  ghost predicate Strange(r: SearchResult, sourceLabels: set<string>, excludedHosts: set<string>) {
    && r.url.scheme in ["http", "https"] && r.url.host !in excludedHosts
    && (exists tag :: NamingLabel(r.url.host, tag))
    && forall tag | NamingLabel(r.url.host, tag) :: tag !in sourceLabels
  }

  lemma StrangeIff(r: SearchResult, sourceLabels: set<string>, excludedHosts: set<string>)
    ensures Strange(r, sourceLabels, excludedHosts) <==> Usable(r, sourceLabels, excludedHosts)
  {
    StrangersOnly(r.url.host, sourceLabels);
  }

  /** Ranks among all results, from ranks among those that pass. */
  lemma RankAmongAll(p: Test, named: Test, public: Test, rs: seq<SearchResult>, passing: seq<SearchResult>,
                     at: seq<nat>, first: nat, pick: nat)
    requires Picked(passing, rs, at) && forall i | 0 <= i < |rs| :: i in at <==> p(rs[i])
    requires pick <= first < |at|
    requires named(passing[first]) && forall k | 0 <= k < first :: !named(passing[k])
    requires pick < first ==> public(passing[pick])
    requires forall k | 0 <= k < pick :: !public(passing[k])
    ensures at[pick] <= at[first] < |rs| && rs[at[pick]] == passing[pick]
    ensures p(rs[at[first]]) && named(rs[at[first]])
    ensures forall k | 0 <= k < at[first] :: !(p(rs[k]) && named(rs[k]))
    ensures at[pick] < at[first] ==> public(rs[at[pick]]) && p(rs[at[pick]])
    ensures forall k | 0 <= k < at[pick] :: !(p(rs[k]) && public(rs[k]))
  {
    assert at[first] in at && at[pick] in at;
    forall k | 0 <= k < at[first] && p(rs[k]) ensures !named(rs[k]) {
      assert k in at;
      var m :| 0 <= m < |at| && at[m] == k;
    }
    forall k | 0 <= k < at[pick] && p(rs[k]) ensures !public(rs[k]) {
      assert k in at;
      var m :| 0 <= m < |at| && at[m] == k;
    }
  }

  /** The pick, by its rank among all results: the first that suits, or, if a stranger's public body is ranked above it,
      the earliest of those. */
  lemma PickRank(folded: string, results: seq<SearchResult>, sourceLabels: set<string>, excludedHosts: set<string>)
    returns (first: nat, pick: nat)
    requires PickOfficial(folded, results, sourceLabels, excludedHosts).Some?
    ensures pick <= first < |results|
    ensures PickOfficial(folded, results, sourceLabels, excludedHosts).value == results[pick]
    ensures Suits(results[first], folded, sourceLabels, excludedHosts)
    ensures forall k | 0 <= k < first :: !Suits(results[k], folded, sourceLabels, excludedHosts)
    ensures pick < first ==>
              IsPublicBody(results[pick].url.host) && Strange(results[pick], sourceLabels, excludedHosts)
    ensures forall k | 0 <= k < pick ::
              !(IsPublicBody(results[k].url.host) && Strange(results[k], sourceLabels, excludedHosts))
  {
    var named, chosen := PickIs(folded, results, sourceLabels, excludedHosts);
    var usable := UsableTest(sourceLabels, excludedHosts);
    var at := FilterKeeps(usable, results);
    RankAmongAll(usable, (r: SearchResult) => Named(r, DistinctiveWords(folded)),
                 (r: SearchResult) => IsPublicBody(r.url.host), results, UsableOf(results, sourceLabels, excludedHosts),
                 at, named, chosen);
    first, pick := at[named], at[chosen];
    forall k | 0 <= k < |results|
      ensures Suits(results[k], folded, sourceLabels, excludedHosts) <==>
              usable(results[k]) && Named(results[k], DistinctiveWords(folded))
      ensures Strange(results[k], sourceLabels, excludedHosts) <==> usable(results[k])
    {
      SuitsIff(results[k], folded, sourceLabels, excludedHosts);
      StrangeIff(results[k], sourceLabels, excludedHosts);
    }
  }

  /** The pick: among the usable results, either the first one that carries the award's name or, if a public
      body is ranked above it, the earliest public body. */
  lemma PickIs(folded: string, results: seq<SearchResult>, sourceLabels: set<string>, excludedHosts: set<string>)
    returns (named: nat, chosen: nat)
    requires PickOfficial(folded, results, sourceLabels, excludedHosts).Some?
    ensures var usable := UsableOf(results, sourceLabels, excludedHosts); var words := DistinctiveWords(folded);
            && chosen <= named < |usable|
            && PickOfficial(folded, results, sourceLabels, excludedHosts).value == usable[chosen]
            && usable[chosen] in results && Usable(usable[chosen], sourceLabels, excludedHosts)
            && Named(usable[named], words) && (forall k | 0 <= k < named :: !Named(usable[k], words))
            && (forall k | 0 <= k < chosen :: !IsPublicBody(usable[k].url.host))
            && (chosen < named ==> IsPublicBody(usable[chosen].url.host))
  {
    UsableOfMembers(results, sourceLabels, excludedHosts);
    var usable := UsableOf(results, sourceLabels, excludedHosts);
    named, chosen := PickFromIs(DistinctiveWords(folded), usable);
    assert usable[chosen] in usable;
  }

  lemma FilterDrops(p: Test, before: seq<SearchResult>, r: SearchResult, after: seq<SearchResult>)
    requires !p(r)
    ensures Filter(p, before + [r] + after) == Filter(p, before + after)
  {
    FilterConcat(p, before + [r], after);
    FilterConcat(p, before, [r]);
    FilterConcat(p, before, after);
    assert Filter(p, [r]) == [];
  }

  /** Unusable results are invisible wherever they are ranked. */
  lemma UnusableIgnored(folded: string, before: seq<SearchResult>, r: SearchResult, after: seq<SearchResult>,
                        sourceLabels: set<string>, excludedHosts: set<string>)
    requires !Usable(r, sourceLabels, excludedHosts)
    ensures PickOfficial(folded, before + [r] + after, sourceLabels, excludedHosts) ==
            PickOfficial(folded, before + after, sourceLabels, excludedHosts)
  {
    FilterDrops(UsableTest(sourceLabels, excludedHosts), before, r, after);
  }

  lemma FirstNamedStable(usable: seq<SearchResult>, more: seq<SearchResult>, words: set<string>)
    requires FirstNamed(usable, words) < |usable|
    ensures FirstNamed(usable + more, words) == FirstNamed(usable, words)
  {
    var named := FirstNamed(usable, words);
    assert (usable + more)[named] == usable[named];
  }

  lemma PickFromStable(words: set<string>, usable: seq<SearchResult>, more: seq<SearchResult>)
    requires PickFrom(words, usable).Some?
    ensures PickFrom(words, usable + more) == PickFrom(words, usable)
  {
    FirstNamedStable(usable, more, words);
    var named := FirstNamed(usable, words);
    assert (usable + more)[..named] == usable[..named];
  }

  /** Once a result is picked, nothing ranked later can change it. */
  lemma LaterResultsIrrelevant(folded: string, results: seq<SearchResult>, more: seq<SearchResult>,
                               sourceLabels: set<string>, excludedHosts: set<string>)
    requires PickOfficial(folded, results, sourceLabels, excludedHosts).Some?
    ensures PickOfficial(folded, results + more, sourceLabels, excludedHosts) ==
            PickOfficial(folded, results, sourceLabels, excludedHosts)
  {
    UsableOfConcat(results, more, sourceLabels, excludedHosts);
    var usable := UsableOf(results, sourceLabels, excludedHosts);
    PickFromStable(DistinctiveWords(folded), usable, UsableOf(more, sourceLabels, excludedHosts));
  }

  // ---- A page never corroborates itself ----

  /** The part of a URL that identifies the document: host without "www.", path without trailing slashes, query. */
  function PageKey(u: Url): (string, string, string) {
    (RemovePrefix(u.host, "www."), RStrip(u.path, '/'), u.query)
  }

  predicate SamePage(a: Url, b: Url) {
    PageKey(a) == PageKey(b)
  }

  function OwnPiece(part: string): seq<string> {
    if part == "" then [] else [part]
  }

  lemma NonEmptyStep(parts: seq<string>)
    requires parts != []
    ensures NonEmpty(parts) == OwnPiece(parts[0]) + NonEmpty(parts[1..])
  {
  }

  lemma {:induction false} NonEmptyConcat(a: seq<string>, b: seq<string>)
    ensures NonEmpty(a + b) == NonEmpty(a) + NonEmpty(b)
  {
    if a == [] {
      assert a + b == b;
    } else {
      NonEmptyConcat(a[1..], b);
      assert (a + b)[1..] == a[1..] + b && (a + b)[0] == a[0];
      NonEmptyStep(a + b);
      NonEmptyStep(a);
      Associative(OwnPiece(a[0]), NonEmpty(a[1..]), NonEmpty(b));
    }
  }

  /** "www." never names anybody: the labels of a host do not see it. */
  lemma WwwInvisible(host: string)
    ensures HostLabels(RemovePrefix(host, "www.")) == HostLabels(host)
  {
    if StartsWith(host, "www.") {
      var bare := host[4..];
      assert host == "www" + ['.'] + bare;
      SplitHead("www", '.', bare);
      NonEmptyConcat(["www"], Split(bare, '.'));
      assert NonEmpty(["www"]) == ["www"];
      var parts := Parts(bare);
      assert Parts(host) == ["www"] + parts;
      if |parts| >= 1 {
        assert Parts(host)[..|Parts(host)| - 1] == ["www"] + parts[..|parts| - 1];
        assert NonDistinctiveLabel("www");
      }
    }
  }

  /** Hosts that name somebody, and nobody in common, do not serve the same page. */
  lemma StrangersDiffer(a: Url, b: Url)
    requires HostLabels(a.host) != {} && HostLabels(a.host) * HostLabels(b.host) == {}
    ensures !SamePage(a, b)
  {
    WwwInvisible(a.host);
    WwwInvisible(b.host);
    assert HostLabels(a.host) * HostLabels(a.host) == HostLabels(a.host);
  }

  /** Whatever the search returns, what is picked is never the source page under another spelling. */
  lemma PickIsNeverTheSource(folded: string, results: seq<SearchResult>, source: Url, excludedHosts: set<string>)
    ensures var pick := PickOfficial(folded, results, HostLabels(source.host), excludedHosts);
            pick.Some? ==> !SamePage(pick.value.url, source)
  {
    var pick := PickOfficial(folded, results, HostLabels(source.host), excludedHosts);
    if pick.Some? {
      var _, _ := PickIs(folded, results, HostLabels(source.host), excludedHosts);
      StrangersDiffer(pick.value.url, source);
    }
  }

  // ---- What identifies a page, and a public body ----

  predicate Slashes(s: string) {
    forall i | 0 <= i < |s| :: s[i] == '/'
  }

  /** One host once a leading "www." is taken off each. */
  ghost predicate SameHost(a: string, b: string) {
    exists bare | (a == bare && !("www." <= a)) || a == "www." + bare ::
      (b == bare && !("www." <= b)) || b == "www." + bare
  }

  /** One path but for slashes at the end. */
  ghost predicate SamePath(a: string, b: string) {
    exists bare | bare <= a && bare <= b :: Slashes(a[|bare|..]) && Slashes(b[|bare|..])
  }

  /** Two URLs are one page exactly when host, path and query agree up to a leading "www." and slashes at the end;
      scheme and port never matter. */
  lemma SamePageIff(a: Url, b: Url)
    ensures SamePage(a, b) <==> SameHost(a.host, b.host) && SamePath(a.path, b.path) && a.query == b.query
  {
    SameHostIff(a.host, b.host);
    SamePathIff(a.path, b.path);
  }

  lemma SameHostIff(a: string, b: string)
    ensures SameHost(a, b) <==> RemovePrefix(a, "www.") == RemovePrefix(b, "www.")
  {
    Unprefixed(a);
    Unprefixed(b);
    var bare := RemovePrefix(a, "www.");
    assert (a == bare && !("www." <= a)) || a == "www." + bare;
  }

  lemma Unprefixed(host: string)
    ensures forall bare :: (host == bare && !("www." <= host)) || host == "www." + bare <==>
                             RemovePrefix(host, "www.") == bare
  {
    forall bare | host == "www." + bare ensures RemovePrefix(host, "www.") == bare {
      assert host[4..] == bare;
    }
    if "www." <= host { assert host == "www." + host[4..]; }
  }

  lemma SamePathIff(a: string, b: string)
    ensures SamePath(a, b) <==> RStrip(a, '/') == RStrip(b, '/')
  {
    RStripIs(a, '/');
    RStripIs(b, '/');
    forall bare | bare <= a && bare <= b && Slashes(a[|bare|..]) && Slashes(b[|bare|..])
      ensures RStrip(a, '/') == RStrip(b, '/')
    {
      StripTail(bare, a[|bare|..]);
      StripTail(bare, b[|bare|..]);
      assert a == bare + a[|bare|..] && b == bare + b[|bare|..];
    }
    if RStrip(a, '/') == RStrip(b, '/') {
      var bare := RStrip(a, '/');
      assert bare <= a && bare <= b && Slashes(a[|bare|..]) && Slashes(b[|bare|..]);
    }
  }

  lemma {:induction false} StripTail(bare: string, tail: string)
    requires Slashes(tail)
    ensures RStrip(bare + tail, '/') == RStrip(bare, '/')
  {
    if tail == "" {
      assert bare + tail == bare;
    } else {
      assert (bare + tail)[..|bare + tail| - 1] == bare + tail[..|tail| - 1];
      StripTail(bare, tail[..|tail| - 1]);
    }
  }

  /** A host of three labels is a public body exactly when its middle one or its last one says so, or it is one of the
      European institutions. */
  lemma PublicBodyOfThree(name: string, tag: string, tld: string)
    requires name != "" && tag != "" && tld != "" && '.' !in name && '.' !in tag && '.' !in tld
    ensures var host := name + "." + tag + "." + tld;
            IsPublicBody(host) <==> PublicBodyLabel(tag) || PublicBodyTld(tld) || EndsWith(host, "europa.eu")
  {
    var host := name + "." + tag + "." + tld;
    assert host == name + ['.'] + (tag + ['.'] + tld);
    SplitHead(name, '.', tag + ['.'] + tld);
    SplitHead(tag, '.', tld);
    SplitPieces(tld, '.');
    assert Split(host, '.') == [name, tag, tld];
    assert NonEmpty([tld]) == [tld];
    assert NonEmpty([tag, tld]) == [tag] + NonEmpty([tag, tld][1..]) && [tag, tld][1..] == [tld];
    assert NonEmpty([name, tag, tld]) == [name] + NonEmpty([name, tag, tld][1..]);
    assert [name, tag, tld][1..] == [tag, tld];
    assert Parts(host) == [name, tag, tld];
  }
}
