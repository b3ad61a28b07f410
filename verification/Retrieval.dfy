/** The fetchers and the order they are tried in, against every behaviour of the network. */
module Retrieval {
  import opened Wrappers
  import opened Urls
  import Budget

  const MIN_USABLE_BODY_CHARS: nat := 1_500

  type byte = b: int | 0 <= b < 256

  /** One GET: a transport error, or a reply whose body may break off after its chunks. */
  datatype HttpReply =
    | NoReply
    | Reply(status: nat, location: Option<string>, chunks: seq<seq<byte>>, breaksOff: bool)

  datatype JinaReply = JinaFailed | JinaText(text: string)

  datatype Settings = Settings(
    hasJinaKey: bool,
    jinaEnabled: bool,
    searchEnabled: bool,
    directEnabled: bool,
    jinaMonthlyLimit: int,
    maxBytes: nat)

  /** Everything outside the process. Name resolution, GETs and reader calls are answered by call number, so
      the same host may resolve differently each time it is asked. */
  datatype Environment = Environment(
    codec: Codec,
    settings: Settings,
    budgetKey: Budget.Key,
    resolve: nat -> HostVerdict,
    get: nat -> HttpReply,
    read: nat -> JinaReply,
    search: nat -> Option<nat>,
    join: (Url, string) -> Url,
    decodedLength: seq<byte> -> nat,
    strippedLength: string -> nat)

  datatype Event =
    | Allowed(url: Url)
    | Refused
    | Get(url: Url)
    | Reserved(granted: bool)
    | JinaRead(url: Url)
    | JinaSearch(query: string)

  datatype Failure = PolicyRefusal | TransportError | ToolDisabled

  datatype FetchMethod = Direct | Jina

  datatype Page = Page(url: Url, fetchMethod: FetchMethod, status: nat, usableChars: nat)

  // ---- Discipline of a trace ----

  /** A GET follows at once on its own URL being allowed; a vendor call on its own grant; a refusal is the
      last thing that happens. */
  ghost predicate InOrder(es: seq<Event>, i: nat)
    requires i < |es|
  {
    match es[i]
    case Get(url) => i > 0 && es[i - 1] == Allowed(url)
    case JinaRead(_) => i > 0 && es[i - 1] == Reserved(true)
    case JinaSearch(_) => i > 0 && es[i - 1] == Reserved(true)
    case Refused => i == |es| - 1
    case _ => true
  }

  ghost predicate Disciplined(es: seq<Event>) {
    forall i | 0 <= i < |es| :: InOrder(es, i)
  }

  predicate EndsRefused(es: seq<Event>) {
    es != [] && es[|es| - 1].Refused?
  }

  predicate VendorCall(e: Event) {
    e.JinaRead? || e.JinaSearch?
  }

  function Gets(es: seq<Event>): nat {
    if es == [] then 0 else (if es[0].Get? then 1 else 0) + Gets(es[1..])
  }

  function VendorCalls(es: seq<Event>): nat {
    if es == [] then 0 else (if VendorCall(es[0]) then 1 else 0) + VendorCalls(es[1..])
  }

  function GrantedReservations(es: seq<Event>): nat {
    if es == [] then 0 else (if es[0] == Reserved(true) then 1 else 0) + GrantedReservations(es[1..])
  }

  lemma DisciplinedConcat(a: seq<Event>, b: seq<Event>)
    requires Disciplined(a) && Disciplined(b)
    requires EndsRefused(a) ==> b == []
    ensures Disciplined(a + b)
  {
    var es := a + b;
    forall i | 0 <= i < |es| ensures InOrder(es, i) {
      if i < |a| {
        assert InOrder(a, i);
      } else {
        assert InOrder(b, i - |a|);
        assert i > |a| ==> es[i - 1] == b[i - |a| - 1];
      }
    }
  }

  lemma {:induction false} CountsConcat(a: seq<Event>, b: seq<Event>)
    ensures Gets(a + b) == Gets(a) + Gets(b)
    ensures VendorCalls(a + b) == VendorCalls(a) + VendorCalls(b)
    ensures GrantedReservations(a + b) == GrantedReservations(a) + GrantedReservations(b)
  {
    if a == [] {
      assert a + b == b;
    } else {
      CountsConcat(a[1..], b);
      assert (a + b)[1..] == a[1..] + b;
    }
  }

  lemma PrefixDisciplined(es: seq<Event>, k: nat)
    requires Disciplined(es) && k <= |es|
    ensures Disciplined(es[..k])
  {
    forall i | 0 <= i < k ensures InOrder(es[..k], i) {
      assert InOrder(es, i);
    }
  }

  /** Crash anywhere: at every point of a disciplined trace the vendor calls made so far are covered by the
      grants obtained so far. With the counter's bound on grants, this is the end-to-end budget. */
  lemma {:induction false} CallsCoveredByGrants(es: seq<Event>)
    requires Disciplined(es)
    ensures VendorCalls(es) <= GrantedReservations(es)
    ensures es != [] && es[|es| - 1] == Reserved(true) ==> VendorCalls(es) < GrantedReservations(es)
    decreases |es|
  {
    if es != [] {
      var front, last := es[..|es| - 1], es[|es| - 1];
      assert es == front + [last];
      PrefixDisciplined(es, |es| - 1);
      CallsCoveredByGrants(front);
      CountsConcat(front, [last]);
      assert InOrder(es, |es| - 1);
    }
  }

  // ---- The shapes of the fetchers' traces ----

  /** One hop: refused, or allowed and fetched. */
  predicate Hop(es: seq<Event>) {
    es == [Refused] || (|es| == 2 && es[0].Allowed? && es[1] == Get(es[0].url))
  }

  ghost predicate NoVendor(es: seq<Event>) {
    forall i | 0 <= i < |es| :: !es[i].Reserved? && !VendorCall(es[i])
  }

  ghost predicate DirectTrace(es: seq<Event>) {
    Disciplined(es) && Gets(es) <= 2 && NoVendor(es)
  }

  predicate JinaTrace(url: Url, es: seq<Event>) {
    es == [] || es == [Reserved(false)] || es == [Reserved(true), JinaRead(url)]
  }

  /** A whole fetch of an allowed URL. */
  ghost predicate FetchTrace(es: seq<Event>) {
    && es != [] && (es[0].Refused? || es[0].Allowed?)
    && Disciplined(es) && Gets(es) <= 2 && VendorCalls(es) <= 1
    && (forall i | 0 <= i < |es| && es[i].JinaRead? :: es[0] == Allowed(es[i].url))
  }

  lemma HopFacts(es: seq<Event>)
    requires Hop(es)
    ensures Disciplined(es) && Gets(es) <= 1 && NoVendor(es)
  {
    if |es| == 2 {
      CountsConcat([es[0]], [es[1]]);
      assert es == [es[0]] + [es[1]];
    }
  }

  lemma Redirected(allowed: Url, first: seq<Event>, second: seq<Event>)
    requires Hop(first) && (second == [] || (Hop(second) && !EndsRefused(first)))
    ensures DirectTrace([Allowed(allowed)] + first + second)
  {
    var head := [Allowed(allowed)];
    HopFacts(first);
    if second != [] { HopFacts(second); }
    assert InOrder(head, 0);
    DisciplinedConcat(head, first);
    DisciplinedConcat(head + first, second);
    CountsConcat(head, first);
    CountsConcat(head + first, second);
  }

  lemma OneHop(allowed: Url, hop: seq<Event>)
    requires Hop(hop)
    ensures DirectTrace([Allowed(allowed)] + hop) && Gets([Allowed(allowed)] + hop) == |hop| - 1
    ensures EndsRefused([Allowed(allowed)] + hop) <==> hop == [Refused]
  {
    Redirected(allowed, hop, []);
    assert [Allowed(allowed)] + hop + [] == [Allowed(allowed)] + hop;
    CountsConcat([Allowed(allowed)], hop);
    HopGets(hop);
  }

  lemma TwoHops(allowed: Url, first: seq<Event>, second: seq<Event>)
    requires Hop(first) && first != [Refused] && Hop(second)
    ensures var es := [Allowed(allowed)] + (first + second);
            DirectTrace(es) && Gets(es) == |second| && (EndsRefused(es) <==> second == [Refused])
  {
    assert [Allowed(allowed)] + (first + second) == [Allowed(allowed)] + first + second;
    Redirected(allowed, first, second);
    CountsConcat([Allowed(allowed)], first);
    CountsConcat([Allowed(allowed)] + first, second);
    HopGets(first);
    HopGets(second);
  }

  lemma HopGets(hop: seq<Event>)
    requires Hop(hop)
    ensures Gets(hop) == |hop| - 1
  {
    if |hop| == 2 {
      CountsConcat([hop[0]], [hop[1]]);
      assert hop == [hop[0]] + [hop[1]];
    }
  }

  lemma {:induction false} NoVendorCounts(es: seq<Event>)
    requires NoVendor(es)
    ensures VendorCalls(es) == 0 && GrantedReservations(es) == 0
  {
    if es != [] { NoVendorCounts(es[1..]); }
  }

  lemma JinaFacts(url: Url, es: seq<Event>)
    requires JinaTrace(url, es)
    ensures Disciplined(es) && !EndsRefused(es)
    ensures Gets(es) == 0 && VendorCalls(es) == GrantedReservations(es) <= 1
    ensures forall i | 0 <= i < |es| && es[i].JinaRead? :: es[i].url == url
  {
    if |es| == 2 {
      CountsConcat([es[0]], [es[1]]);
      assert es == [es[0]] + [es[1]];
    }
  }

  lemma DirectThenReader(url: Url, direct: seq<Event>, reader: seq<Event>)
    requires DirectTrace(direct) && JinaTrace(url, reader) && (EndsRefused(direct) ==> reader == [])
    ensures var es := [Allowed(url)] + direct + reader;
            && FetchTrace(es) && VendorCalls(es) == GrantedReservations(es) == GrantedReservations(reader)
            && Gets(es) == Gets(direct)
  {
    var head := [Allowed(url)];
    assert InOrder(head, 0);
    JinaFacts(url, reader);
    NoVendorCounts(direct);
    DisciplinedConcat(head, direct);
    DisciplinedConcat(head + direct, reader);
    CountsConcat(head, direct);
    CountsConcat(head + direct, reader);
  }

  lemma ReaderThenDirect(url: Url, reader: seq<Event>, direct: seq<Event>)
    requires DirectTrace(direct) && JinaTrace(url, reader)
    ensures var es := [Allowed(url)] + reader + direct;
            && FetchTrace(es) && Gets(es) == Gets(direct)
            && VendorCalls(es) == GrantedReservations(es) == GrantedReservations(reader)
  {
    var head := [Allowed(url)];
    assert InOrder(head, 0);
    JinaFacts(url, reader);
    NoVendorCounts(direct);
    DisciplinedConcat(head, reader);
    DisciplinedConcat(head + reader, direct);
    CountsConcat(head, reader);
    CountsConcat(head + reader, direct);
  }

  lemma NotRefused(a: seq<Event>, b: seq<Event>)
    requires !EndsRefused(a) && !EndsRefused(b)
    ensures !EndsRefused(a + b)
  {
  }

  lemma EndOf(a: seq<Event>, b: seq<Event>)
    requires !EndsRefused(a)
    ensures EndsRefused(a + b) <==> EndsRefused(b)
  {
  }

  /** The traces of a whole fetch, route by route, behind one permission. */
  lemma DirectAlone(url: Url, direct: seq<Event>)
    requires DirectTrace(direct)
    ensures var es := [Allowed(url)] + direct;
            && FetchTrace(es) && VendorCalls(es) == GrantedReservations(es) == 0 && Gets(es) == Gets(direct)
            && (EndsRefused(es) <==> EndsRefused(direct))
  {
    DirectThenReader(url, direct, []);
    assert [Allowed(url)] + direct + [] == [Allowed(url)] + direct;
    EndOf([Allowed(url)], direct);
  }

  lemma DirectWithFallback(url: Url, direct: seq<Event>, reader: seq<Event>)
    requires DirectTrace(direct) && JinaTrace(url, reader) && !EndsRefused(direct)
    ensures var es := [Allowed(url)] + (direct + reader);
            && FetchTrace(es) && !EndsRefused(es) && Gets(es) == Gets(direct)
            && VendorCalls(es) == GrantedReservations(es) == GrantedReservations(reader)
            && (reader == [Reserved(true), JinaRead(url)] ==> EndsRead(es, url))
  {
    DirectThenReader(url, direct, reader);
    assert [Allowed(url)] + (direct + reader) == [Allowed(url)] + direct + reader;
    JinaFacts(url, reader);
    NotRefused([Allowed(url)], direct);
    NotRefused([Allowed(url)] + direct, reader);
  }

  lemma ReaderAlone(url: Url, reader: seq<Event>)
    requires JinaTrace(url, reader)
    ensures var es := [Allowed(url)] + reader;
            && FetchTrace(es) && !EndsRefused(es) && Gets(es) == 0
            && VendorCalls(es) == GrantedReservations(es) == GrantedReservations(reader)
  {
    ReaderThenDirect(url, reader, []);
    assert [Allowed(url)] + reader + [] == [Allowed(url)] + reader;
    JinaFacts(url, reader);
    NotRefused([Allowed(url)], reader);
  }

  lemma ReaderWithFallback(url: Url, reader: seq<Event>, direct: seq<Event>)
    requires JinaTrace(url, reader) && DirectTrace(direct)
    ensures var es := [Allowed(url)] + (reader + direct);
            && FetchTrace(es) && Gets(es) == Gets(direct)
            && VendorCalls(es) == GrantedReservations(es) == GrantedReservations(reader)
            && (EndsRefused(es) <==> EndsRefused(direct))
  {
    ReaderThenDirect(url, reader, direct);
    assert [Allowed(url)] + (reader + direct) == [Allowed(url)] + reader + direct;
    JinaFacts(url, reader);
    NotRefused([Allowed(url)], reader);
    EndOf([Allowed(url)] + reader, direct);
  }

  // ---- Reading a body ----

  function Total(chunks: seq<seq<byte>>): nat {
    if chunks == [] then 0 else |chunks[0]| + Total(chunks[1..])
  }

  function Joined(chunks: seq<seq<byte>>): seq<byte> {
    if chunks == [] then [] else chunks[0] + Joined(chunks[1..])
  }

  lemma {:induction false} ChunksSnoc(chunks: seq<seq<byte>>, chunk: seq<byte>)
    ensures Total(chunks + [chunk]) == Total(chunks) + |chunk|
    ensures Joined(chunks + [chunk]) == Joined(chunks) + chunk
  {
    if chunks == [] {
      assert chunks + [chunk] == [chunk];
    } else {
      ChunksSnoc(chunks[1..], chunk);
      assert (chunks + [chunk])[1..] == chunks[1..] + [chunk];
    }
  }

  lemma {:induction false} TotalMonotone(chunks: seq<seq<byte>>, k: nat)
    requires k <= |chunks|
    ensures Total(chunks[..k]) <= Total(chunks)
  {
    if k > 0 {
      TotalMonotone(chunks[1..], k - 1);
      assert chunks[..k][1..] == chunks[1..][..k - 1];
    }
  }

  /** Read the body, stopping at the first chunk that takes it past the limit: what is held never exceeds it. */
  method ReadBounded(chunks: seq<seq<byte>>, breaksOff: bool, maxBytes: nat)
    returns (body: Result<seq<byte>, Failure>, consumed: nat)
    ensures consumed <= |chunks|
    ensures body == Err(PolicyRefusal) <==> Total(chunks) > maxBytes
    ensures Total(chunks) > maxBytes ==>
              consumed > 0 && Total(chunks[..consumed - 1]) <= maxBytes < Total(chunks[..consumed])
    ensures Total(chunks) <= maxBytes ==>
              consumed == |chunks| && body == if breaksOff then Err(TransportError) else Ok(Joined(chunks))
  {
    var kept: seq<byte> := [];
    var total := 0;
    consumed := 0;
    while consumed < |chunks|
      invariant 0 <= consumed <= |chunks|
      invariant total == Total(chunks[..consumed]) <= maxBytes
      invariant kept == Joined(chunks[..consumed])
    {
      ChunksSnoc(chunks[..consumed], chunks[consumed]);
      assert chunks[..consumed + 1] == chunks[..consumed] + [chunks[consumed]];
      total := total + |chunks[consumed]|;
      if total > maxBytes {
        TotalMonotone(chunks, consumed + 1);
        return Err(PolicyRefusal), consumed + 1;
      }
      kept := kept + chunks[consumed];
      consumed := consumed + 1;
    }
    assert chunks[..consumed] == chunks;
    body := if breaksOff then Err(TransportError) else Ok(kept);
  }

  // ---- The fetchers ----

  ghost predicate IsRedirect(reply: HttpReply) {
    reply.Reply? && 300 <= reply.status < 400
  }

  ghost predicate HasDestination(reply: HttpReply) {
    reply.Reply? && reply.location.Some? && reply.location.value != ""
  }

  /** What the guard says to this URL when it asks for the k-th name resolution. */
  ghost predicate GuardPasses(env: Environment, k: nat, url: Url, approved: seq<string>, allowAny: bool) {
    && url.scheme in ["http", "https"] && url.hasNetloc
    && (allowAny || OnApprovedDomain(env.codec, url.host, approved))
    && env.resolve(k) == Public
  }

  /** The page a reply makes: too long is refused, none or a broken one is a transport error. */
  ghost function PageOf(env: Environment, reply: HttpReply, at: Url): Result<Page, Failure> {
    if reply.NoReply? then Err(TransportError)
    else if Total(reply.chunks) > env.settings.maxBytes then Err(PolicyRefusal)
    else if reply.breaksOff then Err(TransportError)
    else Ok(Page(at, Direct, reply.status, env.decodedLength(Joined(reply.chunks))))
  }

  /** A direct fetch of a URL the guard let through as `allowed`, in full: the GETs it makes and what comes of it. The
      guard is asked again before each GET; one redirect is followed, to where it points; `refused` tells that the guard
      ended it. */
  ghost predicate Followed(env: Environment, k: nat, get: nat, allowed: Url, approved: seq<string>, allowAny: bool,
                           hops: seq<Url>, refused: bool, r: Result<Page, Failure>)
  {
    if !GuardPasses(env, k, allowed, approved, allowAny) then hops == [] && refused && r == Err(PolicyRefusal)
    else
      && Canonicalize(env.codec, allowed).Ok? && hops != [] && hops[0] == Validated(env.codec, allowed)
      && var first := env.get(get);
         if IsRedirect(first) && HasDestination(first) then
           var target := env.join(hops[0], first.location.value);
           if !GuardPasses(env, k + 1, target, approved, allowAny)
           then |hops| == 1 && refused && r == Err(PolicyRefusal)
           else
             && Canonicalize(env.codec, target).Ok? && !refused
             && |hops| == 2 && hops[1] == Validated(env.codec, target)
             && r == PageOf(env, env.get(get + 1), hops[1])
         else
           && |hops| == 1 && !refused
           && r == if IsRedirect(first) then Err(PolicyRefusal) else PageOf(env, first, hops[0])
  }

  /** A direct fetch in full: the guard first, then the GETs. */
  ghost predicate Fetched(env: Environment, k: nat, get: nat, url: Url, approved: seq<string>, allowAny: bool,
                          hops: seq<Url>, refused: bool, r: Result<Page, Failure>)
  {
    if !GuardPasses(env, k, url, approved, allowAny) then hops == [] && refused && r == Err(PolicyRefusal)
    else
      && Canonicalize(env.codec, url).Ok?
      && Followed(env, k + 1, get, Validated(env.codec, url), approved, allowAny, hops, refused, r)
  }

  /** The direct route, which may be switched off. */
  ghost predicate DirectRoute(env: Environment, k: nat, get: nat, url: Url, approved: seq<string>, allowAny: bool,
                              hops: seq<Url>, refused: bool, r: Result<Page, Failure>)
  {
    if env.settings.directEnabled then Fetched(env, k, get, url, approved, allowAny, hops, refused, r)
    else hops == [] && !refused && r == Err(ToolDisabled)
  }

  ghost function ReaderPage(env: Environment, reply: JinaReply, at: Url): Option<Page> {
    match reply
    case JinaFailed => None
    case JinaText(text) => Some(Page(at, Jina, 200, env.strippedLength(text)))
  }

  /** The reader is configured, switched on and within budget. */
  ghost predicate ReaderReady(env: Environment, used: map<Budget.Key, nat>) {
    && env.settings.hasJinaKey && env.settings.jinaEnabled
    && Budget.Grants(used, env.budgetKey, env.settings.jinaMonthlyLimit)
  }

  /** What the direct route brought back settles the fetch. */
  ghost predicate Settled(direct: Result<Page, Failure>) {
    || direct == Err(PolicyRefusal)
    || (direct.Ok? && direct.value.status == 200 && direct.value.usableChars >= 1_500)
  }

  /** The choice between the two routes, case by case. */
  ghost predicate Chosen(direct: Result<Page, Failure>, fallback: Option<Page>, r: Result<Page, Failure>) {
    && (Settled(direct) || fallback.None? ==> r == direct)
    && (!Settled(direct) && fallback.Some? && (direct.Err? || direct.value.status != 200) ==> r == Ok(fallback.value))
    && (!Settled(direct) && fallback.Some? && direct.Ok? && direct.value.status == 200 ==>
          if fallback.value.usableChars > direct.value.usableChars then r == Ok(fallback.value) else r == direct)
  }

  ghost predicate Usable(page: Option<Page>) {
    page.Some? && page.value.usableChars >= 1_500
  }

  /** The trace ends with a granted call of the reader for this URL. */
  ghost predicate EndsRead(es: seq<Event>, url: Url) {
    |es| >= 2 && es[|es| - 2] == Reserved(true) && es[|es| - 1] == JinaRead(url)
  }

  /** An ordinary fetch of a URL the guard let through: the direct route, then, unless that settles it, the reader if
      it can be asked. */
  ghost predicate BothRoutes(env: Environment, k: nat, get: nat, read: nat, used: map<Budget.Key, nat>, url: Url,
                             approved: seq<string>, es: seq<Event>, hops: seq<Url>, direct: Result<Page, Failure>,
                             fallback: Option<Page>, r: Result<Page, Failure>)
  {
    && DirectRoute(env, k, get, url, approved, false, hops, EndsRefused(es), direct)
    && (if !Settled(direct) && ReaderReady(env, used)
        then EndsRead(es, url) && fallback == ReaderPage(env, env.read(read), url)
        else VendorCalls(es) == 0 && GrantedReservations(es) == 0 && fallback.None?)
    && Chosen(direct, fallback, r)
  }

  /** A refusal is the end of it: no vendor is asked, and no budget spent. */
  lemma RefusalAsksNobody(env: Environment, k: nat, get: nat, read: nat, used: map<Budget.Key, nat>, url: Url,
                          approved: seq<string>, es: seq<Event>, hops: seq<Url>, direct: Result<Page, Failure>,
                          fallback: Option<Page>)
    requires BothRoutes(env, k, get, read, used, url, approved, es, hops, direct, fallback, Err(PolicyRefusal))
    ensures VendorCalls(es) == 0 && GrantedReservations(es) == 0
  {
  }

  /** A fetch of an official page the guard let through: the reader if it can be asked, then, unless its page is usable,
      the direct route. */
  ghost predicate ReaderFirst(env: Environment, k: nat, get: nat, read: nat, used: map<Budget.Key, nat>, url: Url,
                              approved: seq<string>, allowAny: bool, es: seq<Event>, hops: seq<Url>,
                              reader: Option<Page>, direct: Result<Page, Failure>, r: Result<Page, Failure>)
  {
    && (if ReaderReady(env, used) then VendorCalls(es) == 1 && reader == ReaderPage(env, env.read(read), url)
        else VendorCalls(es) == 0 && reader.None?)
    && if Usable(reader) then r == Ok(reader.value) && hops == []
       else
         && DirectRoute(env, k, get, url, approved, allowAny, hops, EndsRefused(es), direct)
         && r == if direct.Ok? && direct.value.status >= 400 then Err(TransportError) else direct
  }

  class Session {
    const env: Environment
    const usage: Budget.UsageTable
    var trace: seq<Event>
    var resolved: nat
    var gets: nat
    var readerCalls: nat
    var searches: nat

    constructor (env: Environment, usage: Budget.UsageTable)
      ensures trace == [] && this.env == env && this.usage == usage
    {
      this.env := env;
      this.usage := usage;
      trace := [];
      resolved := 0;
      gets := 0;
      readerCalls := 0;
      searches := 0;
    }

    method Validate(url: Url, approved: seq<string>, allowAny: bool)
      returns (r: Result<Url, Failure>, ghost added: seq<Event>)
      modifies this`resolved, this`trace
      ensures trace == old(trace) + added
      ensures resolved == old(resolved) + 1
      ensures r.Ok? <==> GuardPasses(env, old(resolved), url, approved, allowAny)
      ensures r.Ok? ==> Canonicalize(env.codec, url).Ok?
      ensures r.Ok? ==> added == [Allowed(r.value)] && r.value == Validated(env.codec, url)
      ensures r.Err? ==> r.error == PolicyRefusal && added == [Refused]
    {
      var verdict := env.resolve(resolved);
      resolved := resolved + 1;
      match ValidateSourceUrl(env.codec, url, approved, allowAny, verdict) {
        case Ok(v) => r := Ok(v); added := [Allowed(v)];
        case Err(_) => r := Err(PolicyRefusal); added := [Refused];
      }
      trace := trace + [if r.Ok? then Allowed(r.value) else Refused];
    }

    /** One validated hop: validation happens per hop, never once up front. */
    method GetOnce(url: Url, approved: seq<string>, allowAny: bool)
      returns (r: Result<(HttpReply, Url), Failure>, ghost added: seq<Event>)
      modifies this`resolved, this`trace, this`gets
      ensures trace == old(trace) + added && resolved == old(resolved) + 1
      ensures if GuardPasses(env, old(resolved), url, approved, allowAny)
              then Canonicalize(env.codec, url).Ok?
                   && added == [Allowed(Validated(env.codec, url)), Get(Validated(env.codec, url))]
              else added == [Refused]
      ensures gets == old(gets) + |added| - 1
      ensures r == if added == [Refused] then Err(PolicyRefusal)
                   else if env.get(old(gets)).NoReply? then Err(TransportError)
                   else Ok((env.get(old(gets)), added[0].url))
    {
      var valid, es := Validate(url, approved, allowAny);
      added := es;
      if valid.Err? { return Err(valid.error), added; }
      trace := trace + [Get(valid.value)];
      added := [Allowed(valid.value), Get(valid.value)];
      var reply := env.get(gets);
      gets := gets + 1;
      if reply.NoReply? { return Err(TransportError), added; }
      r := Ok((reply, valid.value));
    }

    /** Read one reply's body within the limit. */
    method PageFrom(reply: HttpReply, at: Url) returns (r: Result<Page, Failure>)
      requires reply.Reply?
      ensures r == PageOf(env, reply, at)
    {
      var body, _ := ReadBounded(reply.chunks, reply.breaksOff, env.settings.maxBytes);
      if body.Err? { return Err(body.error); }
      r := Ok(Page(at, Direct, reply.status, env.decodedLength(body.value)));
    }

    /** The GETs of a direct fetch whose URL the guard let through as `allowed`. */
    method Follow(allowed: Url, approved: seq<string>, allowAny: bool)
      returns (r: Result<Page, Failure>, ghost added: seq<Event>, ghost hops: seq<Url>)
      modifies this`resolved, this`trace, this`gets
      ensures trace == old(trace) + added && DirectTrace([Allowed(allowed)] + added)
      ensures gets == old(gets) + |hops| && Gets([Allowed(allowed)] + added) == |hops|
      ensures Followed(env, old(resolved), old(gets), allowed, approved, allowAny, hops,
                       EndsRefused([Allowed(allowed)] + added), r)
    {
      hops := [];
      var first, es1 := GetOnce(allowed, approved, allowAny);
      added := es1;
      OneHop(allowed, es1);
      if first.Err? {
        if es1 != [Refused] { hops := [es1[0].url]; }
        return Err(first.error), added, hops;
      }
      var reply, at := first.value.0, first.value.1;
      hops := [at];
      if reply.status < 300 || reply.status >= 400 {
        r := PageFrom(reply, at);
        return;
      }
      if reply.location.None? || reply.location.value == "" { return Err(PolicyRefusal), added, hops; }
      ghost var es2;
      r, es2 := SecondHop(env.join(at, reply.location.value), approved, allowAny);
      added := es1 + es2;
      TwoHops(allowed, es1, es2);
      if es2 != [Refused] { hops := hops + [es2[0].url]; }
    }

    /** The one redirect that is followed: a reply to it is the page, whatever its status. */
    method SecondHop(target: Url, approved: seq<string>, allowAny: bool)
      returns (r: Result<Page, Failure>, ghost added: seq<Event>)
      modifies this`resolved, this`trace, this`gets
      ensures trace == old(trace) + added && Hop(added)
      ensures added == [Refused] <==> !GuardPasses(env, old(resolved), target, approved, allowAny)
      ensures added != [Refused] ==> Canonicalize(env.codec, target).Ok? && added[0].url == Validated(env.codec, target)
      ensures gets == old(gets) + |added| - 1
      ensures r == if added == [Refused] then Err(PolicyRefusal) else PageOf(env, env.get(old(gets)), added[0].url)
    {
      var second, es := GetOnce(target, approved, allowAny);
      added := es;
      if second.Err? { return Err(second.error), added; }
      r := PageFrom(second.value.0, second.value.1);
    }

    /** A direct fetch: at most one redirect, re-validated, and a bounded body. `hops` are the GETs it made, each right
        behind its own permission. */
    method FetchSource(url: Url, approved: seq<string>, allowAny: bool)
      returns (r: Result<Page, Failure>, ghost added: seq<Event>, ghost hops: seq<Url>)
      modifies this`resolved, this`trace, this`gets
      ensures trace == old(trace) + added && DirectTrace(added)
      ensures gets == old(gets) + |hops| && Gets(added) == |hops|
      ensures Fetched(env, old(resolved), old(gets), url, approved, allowAny, hops, EndsRefused(added), r)
    {
      var valid, es0 := Validate(url, approved, allowAny);
      if valid.Err? {
        HopFacts(es0);
        HopGets(es0);
        return Err(valid.error), es0, [];
      }
      ghost var more;
      r, more, hops := Follow(valid.value, approved, allowAny);
      added := es0 + more;
    }

    method FetchDirect(url: Url, approved: seq<string>, allowAny: bool)
      returns (r: Result<Page, Failure>, ghost added: seq<Event>, ghost hops: seq<Url>)
      modifies this`resolved, this`trace, this`gets
      ensures trace == old(trace) + added && DirectTrace(added)
      ensures gets == old(gets) + |hops| && Gets(added) == |hops|
      ensures DirectRoute(env, old(resolved), old(gets), url, approved, allowAny, hops, EndsRefused(added), r)
    {
      if !env.settings.directEnabled { return Err(ToolDisabled), [], []; }
      r, added, hops := FetchSource(url, approved, allowAny);
    }

    /** Best effort: no key, switched off, over budget or a transport failure all mean no reader this time. */
    method TryJina(url: Url) returns (page: Option<Page>, ghost added: seq<Event>)
      modifies this`trace, this`readerCalls, usage
      ensures trace == old(trace) + added && JinaTrace(url, added)
      ensures added == [Reserved(true), JinaRead(url)] <==> ReaderReady(env, old(usage.used))
      ensures VendorCalls(added) == if ReaderReady(env, old(usage.used)) then 1 else 0
      ensures page == if added == [Reserved(true), JinaRead(url)] then ReaderPage(env, env.read(old(readerCalls)), url)
                      else None
      ensures Budget.Used(usage.used, env.budgetKey) ==
                Budget.Used(old(usage.used), env.budgetKey) + GrantedReservations(added)
    {
      added := [];
      page := None;
      if !env.settings.hasJinaKey || !env.settings.jinaEnabled { return; }
      var granted := usage.ReserveCall(env.budgetKey, env.settings.jinaMonthlyLimit);
      trace := trace + [Reserved(granted)];
      added := [Reserved(granted)];
      if !granted { return; }
      trace := trace + [JinaRead(url)];
      CountsConcat([Reserved(true)], [JinaRead(url)]);
      added := [Reserved(true)] + [JinaRead(url)];
      var reply := env.read(readerCalls);
      readerCalls := readerCalls + 1;
      if reply.JinaText? {
        page := Some(Page(url, Jina, 200, env.strippedLength(reply.text)));
      }
    }

    /** Direct first, the reader only when that fails or brings back no page. `direct` is what the direct route made of
        the GETs `hops`; unless that settles it, the reader is asked if it can be, and `fallback` is its page. A page
        that is not a 200 gives way to any fallback, a thin one only to a longer. */
    method FetchPage(url: Url, approved: seq<string>)
      returns (r: Result<Page, Failure>, ghost added: seq<Event>, ghost hops: seq<Url>,
               ghost direct: Result<Page, Failure>, ghost fallback: Option<Page>)
      modifies this, usage
      ensures trace == old(trace) + added && FetchTrace(added) && Gets(added) == |hops|
      ensures !GuardPasses(env, old(resolved), url, approved, false) ==> added == [Refused] && r == Err(PolicyRefusal)
      ensures GuardPasses(env, old(resolved), url, approved, false) ==>
                && Canonicalize(env.codec, url).Ok?
                && var valid := Validated(env.codec, url);
                   && added[0] == Allowed(valid)
                   && BothRoutes(env, old(resolved) + 1, old(gets), old(readerCalls), old(usage.used), valid, approved,
                                 added, hops, direct, fallback, r)
      ensures Budget.Used(usage.used, env.budgetKey) ==
                Budget.Used(old(usage.used), env.budgetKey) + GrantedReservations(added)
    {
      var valid, es0 := Validate(url, approved, false);
      added, hops, direct, fallback := es0, [], Err(PolicyRefusal), None;
      if valid.Err? {
        HopFacts(added);
        NoVendorCounts(added);
        return Err(valid.error), added, hops, direct, fallback;
      }
      ghost var more;
      r, more, hops, direct, fallback := FetchAllowed(valid.value, approved);
      added := es0 + more;
    }

    method FetchAllowed(url: Url, approved: seq<string>)
      returns (r: Result<Page, Failure>, ghost added: seq<Event>, ghost hops: seq<Url>,
               ghost direct: Result<Page, Failure>, ghost fallback: Option<Page>)
      modifies this, usage
      ensures var es := [Allowed(url)] + added;
              && trace == old(trace) + added && FetchTrace(es) && Gets(es) == |hops|
              && BothRoutes(env, old(resolved), old(gets), old(readerCalls), old(usage.used), url, approved, es, hops,
                            direct, fallback, r)
              && Budget.Used(usage.used, env.budgetKey) ==
                 Budget.Used(old(usage.used), env.budgetKey) + GrantedReservations(es)
    {
      var page;
      ghost var es1;
      page, es1, hops := FetchDirect(url, approved, false);
      direct, fallback := page, None;
      if page == Err(PolicyRefusal)
         || (page.Ok? && page.value.status == 200 && page.value.usableChars >= MIN_USABLE_BODY_CHARS)
      {
        DirectAlone(url, es1);
        return page, es1, hops, direct, fallback;
      }
      var second, es2 := TryJina(url);
      fallback := second;
      added := es1 + es2;
      DirectWithFallback(url, es1, es2);
      r := page;
      if second.Some? {
        if page.Err? || page.value.status != 200 || second.value.usableChars > page.value.usableChars {
          r := Ok(second.value);
        }
      }
    }

    /** The reader first for clean text, direct as the fallback; any public domain may be asked for. `reader` is the
        reader's page, if it could be asked; a usable one is the answer, and otherwise `direct` is what the direct route
        made of the GETs `hops`, and the answer unless its status says it is none. */
    method FetchOfficialPage(url: Url, approved: seq<string>, allowAny: bool)
      returns (r: Result<Page, Failure>, ghost added: seq<Event>, ghost hops: seq<Url>, ghost reader: Option<Page>,
               ghost direct: Result<Page, Failure>)
      modifies this, usage
      ensures trace == old(trace) + added && FetchTrace(added) && Gets(added) == |hops|
      ensures !GuardPasses(env, old(resolved), url, approved, allowAny) ==>
                added == [Refused] && r == Err(PolicyRefusal)
      ensures GuardPasses(env, old(resolved), url, approved, allowAny) ==>
                && Canonicalize(env.codec, url).Ok?
                && var valid := Validated(env.codec, url);
                   && added[0] == Allowed(valid)
                   && ReaderFirst(env, old(resolved) + 1, old(gets), old(readerCalls), old(usage.used), valid, approved,
                                  allowAny, added, hops, reader, direct, r)
      ensures Budget.Used(usage.used, env.budgetKey) ==
                Budget.Used(old(usage.used), env.budgetKey) + GrantedReservations(added)
    {
      var valid, es0 := Validate(url, approved, allowAny);
      added, hops, reader, direct := es0, [], None, Err(PolicyRefusal);
      if valid.Err? {
        HopFacts(added);
        NoVendorCounts(added);
        HopGets(added);
        return Err(valid.error), added, hops, reader, direct;
      }
      ghost var more;
      r, more, hops, reader, direct := FetchOfficialAllowed(valid.value, approved, allowAny);
      added := es0 + more;
    }

    method FetchOfficialAllowed(url: Url, approved: seq<string>, allowAny: bool)
      returns (r: Result<Page, Failure>, ghost added: seq<Event>, ghost hops: seq<Url>, ghost reader: Option<Page>,
               ghost direct: Result<Page, Failure>)
      modifies this, usage
      ensures var es := [Allowed(url)] + added;
              && trace == old(trace) + added && FetchTrace(es) && Gets(es) == |hops|
              && ReaderFirst(env, old(resolved), old(gets), old(readerCalls), old(usage.used), url, approved, allowAny,
                             es, hops, reader, direct, r)
              && Budget.Used(usage.used, env.budgetKey) ==
                 Budget.Used(old(usage.used), env.budgetKey) + GrantedReservations(es)
    {
      var page, es1 := TryJina(url);
      hops, reader, direct := [], page, Err(PolicyRefusal);
      if page.Some? && page.value.usableChars >= MIN_USABLE_BODY_CHARS {
        ReaderAlone(url, es1);
        return Ok(page.value), es1, hops, reader, direct;
      }
      ghost var es2;
      r, es2, hops, direct := OfficialFallback(url, es1, approved, allowAny);
      added := es1 + es2;
    }

    method OfficialFallback(url: Url, ghost readerSteps: seq<Event>, approved: seq<string>, allowAny: bool)
      returns (r: Result<Page, Failure>, ghost added: seq<Event>, ghost hops: seq<Url>,
               ghost direct: Result<Page, Failure>)
      requires JinaTrace(url, readerSteps)
      modifies this`resolved, this`trace, this`gets
      ensures trace == old(trace) + added
      ensures r == if direct.Ok? && direct.value.status >= 400 then Err(TransportError) else direct
      ensures var es := [Allowed(url)] + (readerSteps + added);
              && FetchTrace(es) && Gets(es) == |hops|
              && GrantedReservations(es) == GrantedReservations(readerSteps) == VendorCalls(es)
              && DirectRoute(env, old(resolved), old(gets), url, approved, allowAny, hops, EndsRefused(es), direct)
    {
      var page;
      ghost var es;
      page, es, hops := FetchDirect(url, approved, allowAny);
      ReaderWithFallback(url, readerSteps, es);
      added, direct, r := es, page, page;
      if page.Ok? && page.value.status >= 400 { r := Err(TransportError); }
    }

    /** Web search under the same budget as the reader. */
    method SearchWeb(query: string) returns (results: nat, ghost added: seq<Event>)
      modifies this, usage
      ensures trace == old(trace) + added
      ensures Disciplined(added) && Gets(added) == 0 && VendorCalls(added) <= 1
      ensures added == [Reserved(true), JinaSearch(query)] <==>
                env.settings.hasJinaKey && env.settings.searchEnabled
                && Budget.Grants(old(usage.used), env.budgetKey, env.settings.jinaMonthlyLimit)
      ensures added != [Reserved(true), JinaSearch(query)] ==> VendorCalls(added) == 0
      ensures results == if added == [Reserved(true), JinaSearch(query)] && env.search(old(searches)).Some?
                         then env.search(old(searches)).value else 0
      ensures Budget.Used(usage.used, env.budgetKey) ==
                Budget.Used(old(usage.used), env.budgetKey) + GrantedReservations(added)
    {
      results := 0;
      added := [];
      if !env.settings.hasJinaKey || !env.settings.searchEnabled { return; }
      var granted := usage.ReserveCall(env.budgetKey, env.settings.jinaMonthlyLimit);
      trace := trace + [Reserved(granted)];
      added := [Reserved(granted)];
      if !granted { return; }
      trace := trace + [JinaSearch(query)];
      added := [Reserved(true), JinaSearch(query)];
      CountsConcat([Reserved(true)], [JinaSearch(query)]);
      assert [Reserved(true)] + [JinaSearch(query)] == added;
      var found := env.search(searches);
      searches := searches + 1;
      if found.Some? { results := found.value; }
    }
  }
}
