/** URL identity and the guard every outbound target passes. A URL is the record `urlsplit` yields: scheme and
    host already lower-case, path and query raw. */
module Urls {
  import opened Wrappers
  import opened Strings

  datatype Url = Url(scheme: string, host: string, port: Option<nat>, hasNetloc: bool, path: string, query: string)

  /** Percent-encoding and case mapping, left uninterpreted. */
  datatype Codec = Codec(
    parseQuery: string -> seq<(string, string)>,
    encodeQuery: seq<(string, string)> -> string,
    lower: string -> string)

  /** Encoding then parsing gives the pairs back. */
  ghost predicate RoundTrips(k: Codec) {
    forall pairs :: k.parseQuery(k.encodeQuery(pairs)) == pairs
  }

  datatype UrlError = NotAbsoluteHttp | NotApproved | Unresolvable | NotPublic

  function RStrip(s: string, c: char): string {
    if s != "" && s[|s| - 1] == c then RStrip(s[..|s| - 1], c) else s
  }

  function LStrip(s: string, c: char): string {
    if s != "" && s[0] == c then LStrip(s[1..], c) else s
  }

  predicate Tracking(k: Codec, key: string) {
    StartsWith(k.lower(key), "utm_") || k.lower(key) in ["fbclid", "gclid"]
  }

  function DropTracking(k: Codec, pairs: seq<(string, string)>): seq<(string, string)> {
    if pairs == [] then []
    else (if Tracking(k, pairs[0].0) then [] else [pairs[0]]) + DropTracking(k, pairs[1..])
  }

  function CanonicalPort(scheme: string, port: Option<nat>): Option<nat> {
    match port
    case None => None
    case Some(p) =>
      if p == 0 || (scheme == "http" && p == 80) || (scheme == "https" && p == 443) then None else port
  }

  function CanonicalPath(path: string): string {
    if path == "" || path == "/" then "/" else RStrip(path, '/')
  }

  /** Normal form used for identity. */
  function Canonicalize(k: Codec, u: Url): Result<Url, UrlError> {
    if u.scheme !in ["http", "https"] || !u.hasNetloc then Err(NotAbsoluteHttp)
    else
      var port := CanonicalPort(u.scheme, u.port);
      Ok(Url(u.scheme, u.host, port, u.host != "" || port.Some?, CanonicalPath(u.path),
             k.encodeQuery(DropTracking(k, k.parseQuery(u.query)))))
  }

  /** Identity is not a fetch target: put back the trailing slash the normal form dropped. */
  function RestoreTrailingSlash(original: Url, normalized: Url): Url {
    if !EndsWith(original.path, "/") then normalized
    else if normalized.path == "" || normalized.path == "/" || EndsWith(normalized.path, "/") then normalized
    else normalized.(path := normalized.path + "/")
  }

  datatype HostVerdict = Public | Private | NoSuchHost

  /** The host is the domain itself or ends with a dot and the domain. */
  ghost predicate BelongsTo(host: string, domain: string) {
    host == domain || exists sub :: host == sub + "." + domain
  }

  /** Some approved entry, in lower case and without its leading dots, is a domain this host belongs to. */
  ghost predicate OnApprovedDomain(k: Codec, host: string, approved: seq<string>) {
    exists d, domain | d in approved && IsDomainOf(k.lower(d), domain) :: BelongsTo(host, domain)
  }

  ghost predicate IsDomainOf(entry: string, domain: string) {
    && (domain == "" || domain[0] != '.')
    && |domain| <= |entry| && entry[|entry| - |domain|..] == domain
    && forall i | 0 <= i < |entry| - |domain| :: entry[i] == '.'
  }

  lemma {:induction false} LStripIs(s: string, c: char)
    ensures |LStrip(s, c)| <= |s| && s[|s| - |LStrip(s, c)|..] == LStrip(s, c)
    ensures LStrip(s, c) == "" || LStrip(s, c)[0] != c
    ensures forall i | 0 <= i < |s| - |LStrip(s, c)| :: s[i] == c
  {
    if s != "" && s[0] == c {
      LStripIs(s[1..], c);
      assert forall i | 1 <= i < |s| :: s[i] == s[1..][i - 1];
      assert s[|s| - |LStrip(s, c)|..] == s[1..][|s| - 1 - |LStrip(s, c)|..];
    }
  }

  lemma OneDomain(entry: string, a: string, b: string)
    requires IsDomainOf(entry, a) && IsDomainOf(entry, b)
    ensures a == b
  {
    if b != "" { assert entry[|entry| - |b|] == b[0]; }
    if a != "" { assert entry[|entry| - |a|] == a[0]; }
    assert |a| == |b|;
  }

  lemma BelongsToIff(host: string, domain: string)
    ensures BelongsTo(host, domain) <==> host == domain || EndsWith(host, "." + domain)
  {
    if EndsWith(host, "." + domain) {
      var sub := host[..|host| - |domain| - 1];
      assert host == sub + ("." + domain) == sub + "." + domain;
    }
    forall sub | host == sub + "." + domain ensures EndsWith(host, "." + domain) {
      assert host == sub + ("." + domain);
      assert host[|sub|..] == "." + domain;
    }
  }

  lemma DomainApprovedIff(k: Codec, host: string, approved: seq<string>)
    ensures DomainApproved(k, host, approved) <==> OnApprovedDomain(k, host, approved)
  {
    forall d | d in approved
      ensures IsDomainOf(k.lower(d), LStrip(k.lower(d), '.'))
      ensures BelongsTo(host, LStrip(k.lower(d), '.')) <==>
              host == LStrip(k.lower(d), '.') || EndsWith(host, "." + LStrip(k.lower(d), '.'))
    {
      LStripIs(k.lower(d), '.');
      BelongsToIff(host, LStrip(k.lower(d), '.'));
    }
    forall d, domain | d in approved && IsDomainOf(k.lower(d), domain) ensures domain == LStrip(k.lower(d), '.') {
      OneDomain(k.lower(d), domain, LStrip(k.lower(d), '.'));
    }
  }

  predicate DomainApproved(k: Codec, host: string, approved: seq<string>) {
    exists d | d in approved :: var domain := LStrip(k.lower(d), '.'); host == domain || EndsWith(host, "." + domain)
  }

  /** Canonicalize and vet a target. The network verdict is asked for last and is never waived. */
  function ValidateSourceUrl(k: Codec, u: Url, approved: seq<string>, allowAny: bool, verdict: HostVerdict):
    (r: Result<Url, UrlError>)
    ensures r.Ok? <==> u.scheme in ["http", "https"] && u.hasNetloc
                       && (allowAny || OnApprovedDomain(k, u.host, approved)) && verdict == Public
    ensures r.Ok? ==> r.value.scheme == u.scheme && r.value.host == u.host
  {
    DomainApprovedIff(k, u.host, approved);
    match Canonicalize(k, u)
    case Err(e) => Err(e)
    case Ok(normalized) =>
      if !allowAny && !DomainApproved(k, normalized.host, approved) then Err(NotApproved)
      else match verdict
        case NoSuchHost => Err(Unresolvable)
        case Private => Err(NotPublic)
        case Public => Ok(RestoreTrailingSlash(u, normalized))
  }

  // ---- Stability ----

  lemma {:induction false} DropTrackingIdempotent(k: Codec, pairs: seq<(string, string)>)
    ensures DropTracking(k, DropTracking(k, pairs)) == DropTracking(k, pairs)
  {
    if pairs != [] {
      DropTrackingIdempotent(k, pairs[1..]);
      var rest := DropTracking(k, pairs[1..]);
      if !Tracking(k, pairs[0].0) {
        assert DropTracking(k, pairs) == [pairs[0]] + rest;
        assert ([pairs[0]] + rest)[1..] == rest;
      } else {
        assert DropTracking(k, pairs) == rest;
      }
    }
  }

  lemma {:induction false} RStripEnds(s: string, c: char)
    ensures RStrip(s, c) == "" || RStrip(s, c)[|RStrip(s, c)| - 1] != c
    ensures RStrip(RStrip(s, c), c) == RStrip(s, c)
    ensures RStrip(s, c) == "" <==> forall i | 0 <= i < |s| :: s[i] == c
  {
    if s != "" && s[|s| - 1] == c {
      var front := s[..|s| - 1];
      RStripEnds(front, c);
      assert s == front + [c];
    }
  }

  /** A stripped path with its slash back strips to itself again. */
  lemma StripAfterRestore(path: string)
    requires path == "" || path[|path| - 1] != '/'
    ensures RStrip(path + "/", '/') == path
  {
    assert (path + "/")[..|path|] == path;
  }

  /** Two or more slashes and nothing else. */
  predicate OnlySlashes(path: string) {
    |path| >= 2 && forall i | 0 <= i < |path| :: path[i] == '/'
  }

  /** The path of a validated URL. */
  function ValidatedPath(path: string): string {
    var normal := CanonicalPath(path);
    if !EndsWith(path, "/") || normal == "" || normal == "/" || EndsWith(normal, "/") then normal else normal + "/"
  }

  lemma PathSettles(path: string)
    ensures ValidatedPath(ValidatedPath(path)) == ValidatedPath(path) <==> !OnlySlashes(path)
    ensures ValidatedPath(ValidatedPath(ValidatedPath(path))) == ValidatedPath(ValidatedPath(path))
  {
    RStripEnds(path, '/');
    var bare := RStrip(path, '/');
    if path == "" || path == "/" {
    } else if bare == "" {
      assert ValidatedPath(path) == "";
    } else {
      StripAfterRestore(bare);
      RStripEnds(bare, '/');
      assert !EndsWith(bare, "/");
      if EndsWith(path, "/") {
        assert ValidatedPath(path) == bare + "/";
        assert EndsWith(bare + "/", "/");
        assert CanonicalPath(bare + "/") == bare;
      } else {
        assert path == bare by { assert path[|path| - 1..] == [path[|path| - 1]]; }
      }
    }
  }

  /** Validation of `u` for a host the guard lets through. */
  function Validated(k: Codec, u: Url): Url
    requires Canonicalize(k, u).Ok?
  {
    RestoreTrailingSlash(u, Canonicalize(k, u).value)
  }

  lemma ValidatedShape(k: Codec, u: Url)
    requires Canonicalize(k, u).Ok? && u.host != ""
    ensures Canonicalize(k, Validated(k, u)).Ok?
    ensures Validated(k, u) == Url(u.scheme, u.host, CanonicalPort(u.scheme, u.port), true, ValidatedPath(u.path),
                                   k.encodeQuery(DropTracking(k, k.parseQuery(u.query))))
  {
  }

  /** Re-validating a validated URL (which every hop does) changes nothing, except for a path of two or more
      slashes only; that one settles after the second time. */
  lemma ValidationStableIff(k: Codec, u: Url)
    requires RoundTrips(k) && Canonicalize(k, u).Ok? && u.host != ""
    ensures Canonicalize(k, Validated(k, u)).Ok?
    ensures Validated(k, Validated(k, u)) == Validated(k, u) <==> !OnlySlashes(u.path)
    ensures Canonicalize(k, Validated(k, Validated(k, u))).Ok?
    ensures Validated(k, Validated(k, Validated(k, u))) == Validated(k, Validated(k, u))
  {
    var once := Validated(k, u);
    ValidatedShape(k, u);
    var twice := Validated(k, once);
    ValidatedShape(k, once);
    ValidatedShape(k, twice);
    PathSettles(u.path);
    var kept := DropTracking(k, k.parseQuery(u.query));
    DropTrackingIdempotent(k, k.parseQuery(u.query));
    assert k.parseQuery(once.query) == kept;
    assert once.query == twice.query;
  }

  /** The identity form is itself stable under exactly the same condition. */
  lemma CanonicalStableIff(k: Codec, u: Url)
    requires RoundTrips(k) && Canonicalize(k, u).Ok? && u.host != ""
    ensures Canonicalize(k, Canonicalize(k, u).value) == Canonicalize(k, u) <==> !OnlySlashes(u.path)
  {
    RStripEnds(u.path, '/');
    DropTrackingIdempotent(k, k.parseQuery(u.query));
    assert k.parseQuery(Canonicalize(k, u).value.query) == DropTracking(k, k.parseQuery(u.query));
    assert CanonicalPath("") == "/";
  }

  /** One page, two spellings: a trailing slash never changes a page's identity, and always survives a fetch. */
  lemma TrailingSlash(k: Codec, u: Url)
    requires Canonicalize(k, u).Ok? && u.path != "" && u.path[|u.path| - 1] != '/'
    ensures var slashed := u.(path := u.path + "/");
            && Canonicalize(k, slashed) == Canonicalize(k, u)
            && Validated(k, slashed).path == Validated(k, u).path + "/"
  {
    StripAfterRestore(u.path);
    RStripEnds(u.path, '/');
    assert EndsWith(u.path + "/", "/");
    assert !EndsWith(u.path, "/") by { assert u.path[|u.path| - 1..] == [u.path[|u.path| - 1]]; }
  }

  // ---- What identity forgets ----

  lemma {:induction false} DropTrackingKeeps(k: Codec, pairs: seq<(string, string)>) returns (at: seq<nat>)
    ensures Picked(DropTracking(k, pairs), pairs, at)
    ensures forall i | 0 <= i < |pairs| ::
              i in at <==> !StartsWith(k.lower(pairs[i].0), "utm_") && k.lower(pairs[i].0) !in ["fbclid", "gclid"]
  {
    if pairs == [] {
      at := [];
    } else {
      var rest := DropTrackingKeeps(k, pairs[1..]);
      var keep := !Tracking(k, pairs[0].0);
      at := InFront(keep, rest);
      PickedInFront(DropTracking(k, pairs[1..]), pairs[1..], rest, pairs[0], keep);
      assert pairs == [pairs[0]] + pairs[1..];
      forall i | 0 <= i < |pairs| ensures i in at <==> !Tracking(k, pairs[i].0) { InFrontHas(keep, rest, i); }
    }
  }

  lemma {:induction false} RStripIs(s: string, c: char)
    ensures |RStrip(s, c)| <= |s| && s[..|RStrip(s, c)|] == RStrip(s, c)
    ensures forall i | |RStrip(s, c)| <= i < |s| :: s[i] == c
  {
    if s != "" && s[|s| - 1] == c {
      RStripIs(s[..|s| - 1], c);
      assert forall i | 0 <= i < |s| - 1 :: s[i] == s[..|s| - 1][i];
    }
  }

  /** Identity, spelled out: scheme and host stay; a port goes exactly when it is zero or the scheme's own; the path
      loses its trailing slashes and nothing else, unless it was empty or one slash; the query keeps every parameter but
      the tracking ones, in order. */
  lemma CanonicalIs(k: Codec, u: Url) returns (kept: seq<(string, string)>, at: seq<nat>)
    requires u.scheme in ["http", "https"] && u.hasNetloc
    ensures Canonicalize(k, u).Ok?
    ensures var c := Canonicalize(k, u).value;
            && c.scheme == u.scheme && c.host == u.host
            && (c.port.Some? ==> c.port == u.port)
            && (c.port.None? <==>
                  u.port == None || u.port == Some(0) || u.port == Some(if u.scheme == "http" then 80 else 443))
            && (u.path in ["", "/"] ==> c.path == "/")
            && (u.path !in ["", "/"] ==>
                  && c.path <= u.path && (forall i | |c.path| <= i < |u.path| :: u.path[i] == '/')
                  && (c.path == "" || c.path[|c.path| - 1] != '/'))
            && c.query == k.encodeQuery(kept)
    ensures Picked(kept, k.parseQuery(u.query), at)
    ensures forall i | 0 <= i < |k.parseQuery(u.query)| ::
              var key := k.lower(k.parseQuery(u.query)[i].0);
              i in at <==> !StartsWith(key, "utm_") && key !in ["fbclid", "gclid"]
  {
    at := DropTrackingKeeps(k, k.parseQuery(u.query));
    kept := DropTracking(k, k.parseQuery(u.query));
    RStripIs(u.path, '/');
    RStripEnds(u.path, '/');
  }
}
