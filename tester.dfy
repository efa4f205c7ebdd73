/** The probing orchestrator (tester/tester.go): for every endpoint, an
    unauthenticated probe, an authenticated probe and one probe per entry of
    the bypass header catalog; a bypass probe whose status differs from the
    endpoint's unauthenticated status is a bypass hit, and a path that looks
    like it addresses an object is an IDOR candidate.

    The HTTP exchange is not modelled: `probe(method, url, headers)` stands
    for it and returns "ERR" or a status line such as "401 Unauthorized". */
module Tester {
  import opened Strings
  import opened Parser

  type Headers = map<string, string>

  /** The HTTP exchange: method, URL and request headers to a status string. */
  type Prober = (string, string, Headers) -> string

  /** One recorded probe: a subject (the URL, possibly with a header name) and
      the status string. */
  datatype Entry = Entry(subject: string, status: string)

  datatype Results = Results(
    unauth: seq<Entry>,
    auth: seq<Entry>,
    bypass: seq<Entry>,
    idorCandidates: seq<string>,
    bypassHits: seq<string>)

  /** A catalog entry: a header set with a single header. */
  datatype Header = Header(name: string, value: string) {
    function AsMap(): Headers { map[name := value] }
  }

  /** The bypass header catalog, in the order the probes are sent. */
  const BypassHeaders: seq<Header> := [
    Header("X-Forwarded-For", "127.0.0.1"),
    Header("X-Originating-IP", "127.0.0.1"),
    Header("X-Client-IP", "127.0.0.1"),
    Header("X-Remote-IP", "127.0.0.1"),
    Header("Forwarded", "for=127.0.0.1"),
    Header("Authorization", "Bearer faketoken"),
    Header("Cookie", "session=fakecookie")
  ]

  const IdorKeywords: seq<string> := ["user", "account", "project", "org", "team", "profile"]

  // ---------------------------------------------------------------------------
  // Authenticated header set

  /** The headers of the authenticated probe: a non-empty token wins, else a
      non-empty cookie, else no header at all. */
  function AuthHeaders(token: string, cookie: string): (h: Headers)
    ensures token != "" ==> h == map["Authorization" := "Bearer " + token]
    ensures token == "" && cookie != "" ==> h == map["Cookie" := cookie]
    ensures token == "" && cookie == "" ==> h == map[]
  {
    if token != "" then map["Authorization" := "Bearer " + token]
    else if cookie != "" then map["Cookie" := cookie]
    else map[]
  }

  // ---------------------------------------------------------------------------
  // IDOR heuristic

  /** Some keyword of `kws` occurs in `lower`, scanning `kws` in order. */
  function ContainsAnyKeyword(lower: string, kws: seq<string>): bool {
    kws != [] && (Contains(lower, kws[0]) || ContainsAnyKeyword(lower, kws[1..]))
  }

  /** The IDOR heuristic as a value: both braces occur in the lower-cased
      path, or one of the keywords does. */
  function IdorHint(path: string): bool {
    var lower := ToLower(path);
    if Contains(lower, "{") && Contains(lower, "}") then true
    else ContainsAnyKeyword(lower, IdorKeywords)
  }

  /** containsIDORHint: the brace test, then the keywords in order, returning
      as soon as one is found. */
  method ContainsIDORHint(path: string) returns (hint: bool)
    ensures hint == IdorHint(path)
  {
    var lower := ToLower(path);
    if Contains(lower, "{") && Contains(lower, "}") {
      return true;
    }
    for k := 0 to |IdorKeywords|
      invariant ContainsAnyKeyword(lower, IdorKeywords) == ContainsAnyKeyword(lower, IdorKeywords[k..])
    {
      assert IdorKeywords[k..][1..] == IdorKeywords[k + 1..];
      if Contains(lower, IdorKeywords[k]) {
        return true;
      }
    }
    return false;
  }

  lemma {:induction false} ContainsAnyKeywordIff(lower: string, kws: seq<string>)
    ensures ContainsAnyKeyword(lower, kws) <==> exists k, i :: 0 <= k < |kws| && OccursAt(lower, kws[k], i)
    decreases |kws|
  {
    if kws != [] {
      ContainsIff(lower, kws[0]);
      ContainsAnyKeywordIff(lower, kws[1..]);
      if exists k, i :: 0 <= k < |kws| && OccursAt(lower, kws[k], i) {
        var k, i :| 0 <= k < |kws| && OccursAt(lower, kws[k], i);
        if k > 0 {
          assert kws[1..][k - 1] == kws[k];
        }
      }
      if exists k, i :: 0 <= k < |kws[1..]| && OccursAt(lower, kws[1..][k], i) {
        var k, i :| 0 <= k < |kws[1..]| && OccursAt(lower, kws[1..][k], i);
        assert OccursAt(lower, kws[k + 1], i);
      }
    }
  }

  lemma LowerKeepsBraces(path: string, c: char)
    requires c == '{' || c == '}'
    ensures c in ToLower(path) <==> c in path
  {
    var lower := ToLower(path);
    if c in lower {
      var i :| 0 <= i < |lower| && lower[i] == c;
      assert path[i] == c;
    }
    if c in path {
      var i :| 0 <= i < |path| && path[i] == c;
      assert lower[i] == c;
    }
  }

  /** A path is an IDOR candidate exactly when it contains both a `{` and a
      `}` somewhere (in any order, not necessarily matched), or when one of
      the keywords occurs at some offset of the lower-cased path. */
  lemma IdorHintIff(path: string)
    ensures IdorHint(path) <==>
              ('{' in path && '}' in path) ||
              exists k, i :: 0 <= k < |IdorKeywords| && OccursAt(ToLower(path), IdorKeywords[k], i)
  {
    ContainsChar(ToLower(path), '{');
    ContainsChar(ToLower(path), '}');
    LowerKeepsBraces(path, '{');
    LowerKeepsBraces(path, '}');
    ContainsAnyKeywordIff(ToLower(path), IdorKeywords);
  }

  lemma LowerOfUpper(s: string)
    ensures ToLower(ToUpper(s)) == ToLower(s)
  {
    assert forall i :: 0 <= i < |s| ==> LowerChar(UpperChar(s[i])) == LowerChar(s[i]);
  }

  lemma LowerOfLower(s: string)
    ensures ToLower(ToLower(s)) == ToLower(s)
  {
    assert forall i :: 0 <= i < |s| ==> LowerChar(LowerChar(s[i])) == LowerChar(s[i]);
  }

  /** The heuristic ignores the case of ASCII letters. */
  lemma IdorHintIgnoresCase(path: string)
    ensures IdorHint(ToUpper(path)) == IdorHint(path)
    ensures IdorHint(ToLower(path)) == IdorHint(path)
  {
    LowerOfUpper(path);
    LowerOfLower(path);
  }

  /** Both braces flag a path, in any order and unmatched. */
  lemma IdorHintUnmatchedBraces(path: string)
    requires path == "/a}/{b"
    ensures IdorHint(path)
  {
    IdorHintIff(path);
    assert path[4] == '{' && path[2] == '}';
  }

  /** A keyword flags a path whatever the case of its letters. */
  lemma IdorHintUpperKeyword(path: string)
    requires path == "/ORG/settings"
    ensures IdorHint(path)
  {
    var lower := ToLower(path);
    assert lower[1] == 'o' && lower[2] == 'r' && lower[3] == 'g';
    assert lower[1..4] == ['o', 'r', 'g'];
    assert IdorKeywords[3] == "org";
    assert OccursAt(lower, IdorKeywords[3], 1);
    ContainsAnyKeywordIff(lower, IdorKeywords);
  }

  /** A string that lacks one of the characters of `sub` does not contain it. */
  lemma MissingCharNotContained(s: string, sub: string, k: int)
    requires 0 <= k < |sub| && sub[k] !in s
    ensures !Contains(s, sub)
  {
    ContainsIff(s, sub);
  }

  lemma {:induction false} NoKeyword(lower: string, kws: seq<string>)
    requires forall k :: 0 <= k < |kws| ==> !Contains(lower, kws[k])
    ensures !ContainsAnyKeyword(lower, kws)
    decreases |kws|
  {
    if kws != [] {
      assert forall k :: 0 <= k < |kws[1..]| ==> kws[1..][k] == kws[k + 1];
      NoKeyword(lower, kws[1..]);
    }
  }

  lemma LowerOfPlainPath(path: string)
    requires path == "/health"
    ensures ToLower(path) == path
  {
    var lower := ToLower(path);
    assert lower[0] == '/' && lower[1] == 'h' && lower[2] == 'e' && lower[3] == 'a';
    assert lower[4] == 'l' && lower[5] == 't' && lower[6] == 'h';
  }

  lemma NoHintInPlainPath(lower: string)
    requires lower == "/health"
    ensures !Contains(lower, "{")
    ensures !ContainsAnyKeyword(lower, IdorKeywords)
  {
    MissingCharNotContained(lower, "{", 0);
    MissingCharNotContained(lower, "user", 0);
    MissingCharNotContained(lower, "account", 1);
    MissingCharNotContained(lower, "project", 0);
    MissingCharNotContained(lower, "org", 0);
    MissingCharNotContained(lower, "team", 3);
    MissingCharNotContained(lower, "profile", 0);
    NoKeyword(lower, IdorKeywords);
  }

  /** A path with neither a brace nor a keyword is not flagged. */
  lemma IdorHintPlainPath(path: string)
    requires path == "/health"
    ensures !IdorHint(path)
  {
    LowerOfPlainPath(path);
    NoHintInPlainPath(ToLower(path));
  }

  // ---------------------------------------------------------------------------
  // Specification of the result lists

  /** One entry per endpoint, in order: its URL and the status of probing it
      with the header set `h`. */
  function Entries(eps: seq<Endpoint>, h: Headers, probe: Prober): seq<Entry> {
    if eps == [] then []
    else
      var ep := eps[|eps| - 1];
      Entries(eps[..|eps| - 1], h, probe) + [Entry(ep.url, probe(ep.httpMethod, ep.url, h))]
  }

  /** The status of the unauthenticated probe of `ep`. */
  function Baseline(ep: Endpoint, probe: Prober): string {
    probe(ep.httpMethod, ep.url, map[])
  }

  /** One bypass probe: the endpoint, the catalog header's name, the
      endpoint's baseline status and the status with that header set. */
  datatype Attempt = Attempt(ep: Endpoint, header: string, baseline: string, status: string)

  function AttemptOf(ep: Endpoint, h: Header, probe: Prober): Attempt {
    Attempt(ep, h.name, Baseline(ep, probe), probe(ep.httpMethod, ep.url, h.AsMap()))
  }

  /** The bypass probes of `ep` with the header sets `hs`, in order. */
  function AttemptsWith(ep: Endpoint, hs: seq<Header>, probe: Prober): (r: seq<Attempt>)
    ensures |r| == |hs|
  {
    if hs == [] then [] else AttemptsWith(ep, hs[..|hs| - 1], probe) + [AttemptOf(ep, hs[|hs| - 1], probe)]
  }

  /** All bypass probes of a run: endpoint-major, then catalog order. */
  function Attempts(eps: seq<Endpoint>, probe: Prober): seq<Attempt> {
    if eps == [] then [] else Attempts(eps[..|eps| - 1], probe) + AttemptsWith(eps[|eps| - 1], BypassHeaders, probe)
  }

  /** A bypass probe whose status differs from the baseline is a hit. */
  predicate IsHit(a: Attempt) {
    a.status != a.baseline
  }

  function BypassEntry(a: Attempt): Entry {
    Entry(a.ep.url + " (" + a.header + ")", a.status)
  }

  function HitText(a: Attempt): string {
    a.ep.httpMethod + " " + a.ep.url + " (" + a.header + ") → baseline=" + a.baseline + ", bypass=" + a.status
  }

  /** One bypass entry per attempt, in order. */
  function BypassEntries(attempts: seq<Attempt>): seq<Entry> {
    if attempts == [] then []
    else BypassEntries(attempts[..|attempts| - 1]) + [BypassEntry(attempts[|attempts| - 1])]
  }

  /** One hit line per attempt that is a hit, in order. */
  function HitLines(attempts: seq<Attempt>): seq<string> {
    if attempts == [] then []
    else
      var a := attempts[|attempts| - 1];
      HitLines(attempts[..|attempts| - 1]) + (if IsHit(a) then [HitText(a)] else [])
  }

  /** The URLs of the endpoints whose path the IDOR heuristic flags, in order. */
  function IdorUrls(eps: seq<Endpoint>): seq<string> {
    if eps == [] then []
    else
      var ep := eps[|eps| - 1];
      IdorUrls(eps[..|eps| - 1]) + (if IdorHint(ep.path) then [ep.url] else [])
  }

  // ---------------------------------------------------------------------------
  // The orchestrator

  /** The `for k := range hset { key = k }` loop: the last key visited, or ""
      for an empty header set. */
  method LastKey(hset: Headers) returns (key: string)
    ensures |hset| == 0 ==> key == ""
    ensures |hset| > 0 ==> key in hset
  {
    key := "";
    var rest := hset.Keys;
    while rest != {}
      invariant rest <= hset.Keys
      invariant rest == hset.Keys ==> key == ""
      invariant rest != hset.Keys ==> key in hset
      decreases |rest|
    {
      var k :| k in rest;
      key := k;
      rest := rest - {k};
    }
  }

  /** RunTests: probe every endpoint in input order and collect the five lists. */
  method RunTests(endpoints: seq<Endpoint>, token: string, cookie: string, probe: Prober) returns (results: Results)
    ensures results.unauth == Entries(endpoints, map[], probe)
    ensures results.auth == Entries(endpoints, AuthHeaders(token, cookie), probe)
    ensures token == "" && cookie == "" ==> results.auth == results.unauth
    ensures results.bypass == BypassEntries(Attempts(endpoints, probe))
    ensures results.bypassHits == HitLines(Attempts(endpoints, probe))
    ensures results.idorCandidates == IdorUrls(endpoints)
  {
    var unauth: seq<Entry> := [];
    var auth: seq<Entry> := [];
    var bypass: seq<Entry> := [];
    var idor: seq<string> := [];
    var hits: seq<string> := [];

    var headersAuth: Headers := map[];
    if token != "" {
      headersAuth := map["Authorization" := "Bearer " + token];
    } else if cookie != "" {
      headersAuth := map["Cookie" := cookie];
    }
    assert headersAuth == AuthHeaders(token, cookie);

    for i := 0 to |endpoints|
      invariant unauth == Entries(endpoints[..i], map[], probe)
      invariant auth == Entries(endpoints[..i], headersAuth, probe)
      invariant bypass == BypassEntries(Attempts(endpoints[..i], probe))
      invariant hits == HitLines(Attempts(endpoints[..i], probe))
      invariant idor == IdorUrls(endpoints[..i])
    {
      var ep := endpoints[i];

      var unauthStatus := probe(ep.httpMethod, ep.url, map[]);
      unauth := unauth + [Entry(ep.url, unauthStatus)];

      var authStatus := probe(ep.httpMethod, ep.url, headersAuth);
      auth := auth + [Entry(ep.url, authStatus)];

      bypass, hits := ProbeBypassHeaders(ep, unauthStatus, probe, BypassHeaders, Attempts(endpoints[..i], probe), bypass, hits);

      var flagged := ContainsIDORHint(ep.path);
      if flagged {
        idor := idor + [ep.url];
      }
      RecordEndpoint(endpoints, probe, i);
      EntriesSnoc(endpoints, map[], probe, i);
      EntriesSnoc(endpoints, headersAuth, probe, i);
    }
    assert endpoints[..|endpoints|] == endpoints;
    results := Results(unauth, auth, bypass, idor, hits);
  }

  /** The inner loop of RunTests: one probe of `ep` per entry of `catalog`
      (the bypass header catalog), in catalog order, recording each entry and
      each status that differs from the baseline. */
  method ProbeBypassHeaders(ep: Endpoint, unauthStatus: string, probe: Prober, catalog: seq<Header>,
                            ghost done: seq<Attempt>,
                            bypass: seq<Entry>, hits: seq<string>)
    returns (bypass': seq<Entry>, hits': seq<string>)
    requires unauthStatus == Baseline(ep, probe)
    requires bypass == BypassEntries(done) && hits == HitLines(done)
    ensures bypass' == BypassEntries(done + AttemptsWith(ep, catalog, probe))
    ensures hits' == HitLines(done + AttemptsWith(ep, catalog, probe))
  {
    bypass', hits' := bypass, hits;
    assert done + AttemptsWith(ep, catalog[..0], probe) == done;
    for j := 0 to |catalog|
      invariant bypass' == BypassEntries(done + AttemptsWith(ep, catalog[..j], probe))
      invariant hits' == HitLines(done + AttemptsWith(ep, catalog[..j], probe))
    {
      var hset := catalog[j].AsMap();
      var status := probe(ep.httpMethod, ep.url, hset);
      var key := LastKey(hset);
      assert hset.Keys == {catalog[j].name};
      ghost var a := AttemptOf(ep, catalog[j], probe);
      assert a == Attempt(ep, key, unauthStatus, status);
      RecordAttempt(done, ep, catalog, j, probe);

      bypass' := bypass' + [Entry(ep.url + " (" + key + ")", status)];
      assert bypass' == BypassEntries(done + AttemptsWith(ep, catalog[..j], probe)) + [BypassEntry(a)];

      if status != unauthStatus {
        hits' := hits' + [ep.httpMethod + " " + ep.url + " (" + key + ") → baseline=" + unauthStatus + ", bypass=" + status];
        assert hits' == HitLines(done + AttemptsWith(ep, catalog[..j], probe)) + [HitText(a)];
      } else {
        assert !IsHit(a);
      }
    }
    assert catalog[..|catalog|] == catalog;
  }

  /** Recording the bypass probe with header `hs[j]` extends the bypass list
      by its entry and the hit list by its line if it is a hit. */
  lemma {:induction false} RecordAttempt(done: seq<Attempt>, ep: Endpoint, hs: seq<Header>, j: int, probe: Prober)
    requires 0 <= j < |hs|
    ensures var prev, a := done + AttemptsWith(ep, hs[..j], probe), AttemptOf(ep, hs[j], probe);
      && BypassEntries(done + AttemptsWith(ep, hs[..j + 1], probe)) == BypassEntries(prev) + [BypassEntry(a)]
      && HitLines(done + AttemptsWith(ep, hs[..j + 1], probe)) == HitLines(prev) + (if IsHit(a) then [HitText(a)] else [])
  {
    var prev, a := done + AttemptsWith(ep, hs[..j], probe), AttemptOf(ep, hs[j], probe);
    assert hs[..j + 1][..j] == hs[..j];
    assert done + AttemptsWith(ep, hs[..j + 1], probe) == prev + [a];
    assert (prev + [a])[..|prev|] == prev;
  }

  /** The attempts of the first `i + 1` endpoints are those of the first `i`
      followed by endpoint `i`'s, and the IDOR list grows by at most its URL. */
  lemma {:induction false} RecordEndpoint(eps: seq<Endpoint>, probe: Prober, i: int)
    requires 0 <= i < |eps|
    ensures Attempts(eps[..i + 1], probe) == Attempts(eps[..i], probe) + AttemptsWith(eps[i], BypassHeaders, probe)
    ensures IdorUrls(eps[..i + 1]) == IdorUrls(eps[..i]) + (if IdorHint(eps[i].path) then [eps[i].url] else [])
  {
    assert eps[..i + 1][..i] == eps[..i];
  }

  // ---------------------------------------------------------------------------
  // Properties of the result lists

  lemma {:induction false} EntriesSnoc(eps: seq<Endpoint>, h: Headers, probe: Prober, i: int)
    requires 0 <= i < |eps|
    ensures Entries(eps[..i + 1], h, probe) == Entries(eps[..i], h, probe) + [Entry(eps[i].url, probe(eps[i].httpMethod, eps[i].url, h))]
  {
    assert eps[..i + 1][..i] == eps[..i];
  }

  /** The unauthenticated and the authenticated list have one entry per
      endpoint, in input order: its URL and the status of its probe. */
  lemma {:induction false} EntriesAt(eps: seq<Endpoint>, h: Headers, probe: Prober, i: int)
    requires 0 <= i < |eps|
    ensures |Entries(eps, h, probe)| == |eps|
    ensures Entries(eps, h, probe)[i] == Entry(eps[i].url, probe(eps[i].httpMethod, eps[i].url, h))
    decreases |eps|
  {
    var init := eps[..|eps| - 1];
    if init != [] {
      EntriesAt(init, h, probe, if i < |init| then i else 0);
    }
    if i < |init| {
      assert init[i] == eps[i];
    }
  }


  lemma {:induction false} AttemptsWithAt(ep: Endpoint, hs: seq<Header>, probe: Prober, j: int)
    requires 0 <= j < |hs|
    ensures AttemptsWith(ep, hs, probe)[j] == AttemptOf(ep, hs[j], probe)
    decreases |hs|
  {
    if j < |hs| - 1 {
      AttemptsWithAt(ep, hs[..|hs| - 1], probe, j);
    }
  }

  lemma {:induction false} AttemptsLength(eps: seq<Endpoint>, probe: Prober)
    ensures |Attempts(eps, probe)| == 7 * |eps|
    decreases |eps|
  {
    if eps != [] {
      AttemptsLength(eps[..|eps| - 1], probe);
    }
  }

  /** The catalog has seven entries, so a run makes seven bypass probes per
      endpoint, and the one for endpoint `i` and header `j` is at 7 * i + j. */
  lemma {:induction false} AttemptIndex(eps: seq<Endpoint>, probe: Prober, i: int, j: int)
    requires 0 <= i < |eps| && 0 <= j < |BypassHeaders|
    ensures |Attempts(eps, probe)| == 7 * |eps|
    ensures Attempts(eps, probe)[7 * i + j] == AttemptOf(eps[i], BypassHeaders[j], probe)
    decreases |eps|
  {
    var init := eps[..|eps| - 1];
    AttemptsLength(eps, probe);
    AttemptsLength(init, probe);
    if i < |eps| - 1 {
      AttemptIndex(init, probe, i, j);
      assert eps[i] == init[i];
    } else {
      AttemptsWithAt(eps[i], BypassHeaders, probe, j);
    }
  }

  lemma {:induction false} BypassEntriesAt(attempts: seq<Attempt>, k: int)
    requires 0 <= k < |attempts|
    ensures |BypassEntries(attempts)| == |attempts|
    ensures BypassEntries(attempts)[k] == BypassEntry(attempts[k])
    decreases |attempts|
  {
    var init := attempts[..|attempts| - 1];
    if init != [] {
      BypassEntriesAt(init, if k < |init| then k else 0);
    }
  }

  /** The bypass list has seven entries per endpoint; the one for endpoint
      `i` and catalog header `j` sits at 7 * i + j, is labelled with the URL
      and the header's name, and holds the status of that probe. */
  lemma {:induction false} BypassAt(eps: seq<Endpoint>, probe: Prober, i: int, j: int)
    requires 0 <= i < |eps| && 0 <= j < |BypassHeaders|
    ensures |BypassEntries(Attempts(eps, probe))| == 7 * |eps|
    ensures BypassEntries(Attempts(eps, probe))[7 * i + j] ==
              Entry(eps[i].url + " (" + BypassHeaders[j].name + ")",
                    probe(eps[i].httpMethod, eps[i].url, map[BypassHeaders[j].name := BypassHeaders[j].value]))
  {
    AttemptIndex(eps, probe, i, j);
    BypassEntriesAt(Attempts(eps, probe), 7 * i + j);
  }

  /** The positions of the attempts that are hits. */
  function HitPositions(attempts: seq<Attempt>): set<int> {
    set k | 0 <= k < |attempts| && IsHit(attempts[k])
  }

  /** Exactly one hit line per attempt that is a hit. */
  lemma {:induction false} HitLinesCount(attempts: seq<Attempt>)
    ensures |HitLines(attempts)| == |HitPositions(attempts)|
    ensures |HitLines(attempts)| <= |attempts|
    decreases |attempts|
  {
    if attempts != [] {
      var init := attempts[..|attempts| - 1];
      HitLinesCount(init);
      assert |init| !in HitPositions(init);
      if IsHit(attempts[|init|]) {
        assert HitPositions(attempts) == HitPositions(init) + {|init|};
      } else {
        assert HitPositions(attempts) == HitPositions(init);
      }
    }
  }

  /** Probing endpoint `ep` with catalog header `h` changes its status. */
  predicate Changed(ep: Endpoint, h: Header, probe: Prober) {
    probe(ep.httpMethod, ep.url, h.AsMap()) != Baseline(ep, probe)
  }

  /** The bypass probes whose status changes, each named by its index
      7 * i + j for endpoint `i` and catalog header `j`. */
  function ChangedProbes(eps: seq<Endpoint>, probe: Prober): set<int> {
    set k | 0 <= k < 7 * |eps| && k / 7 < |eps| && Changed(eps[k / 7], BypassHeaders[k % 7], probe)
  }

  /** The hits are exactly as many as the (endpoint, catalog header) pairs
      whose bypass status differs from the endpoint's baseline status, and
      so at most seven per endpoint. */
  lemma {:induction false} HitCount(eps: seq<Endpoint>, probe: Prober)
    ensures |HitLines(Attempts(eps, probe))| == |ChangedProbes(eps, probe)|
    ensures |HitLines(Attempts(eps, probe))| == |HitPositions(Attempts(eps, probe))|
    ensures |HitLines(Attempts(eps, probe))| <= 7 * |eps|
  {
    var all := Attempts(eps, probe);
    HitLinesCount(all);
    AttemptsLength(eps, probe);
    forall k | 0 <= k < |all| ensures k in HitPositions(all) <==> k in ChangedProbes(eps, probe) {
      assert 0 <= k / 7 < |eps| && k == 7 * (k / 7) + k % 7;
      AttemptIndex(eps, probe, k / 7, k % 7);
    }
    assert HitPositions(all) == ChangedProbes(eps, probe);
  }

  lemma {:induction false} HitLinesMembership(attempts: seq<Attempt>, line: string)
    ensures line in HitLines(attempts) <==> exists k :: 0 <= k < |attempts| && IsHit(attempts[k]) && line == HitText(attempts[k])
    decreases |attempts|
  {
    if attempts != [] {
      var init := attempts[..|attempts| - 1];
      HitLinesMembership(init, line);
      if exists k :: 0 <= k < |init| && IsHit(init[k]) && line == HitText(init[k]) {
        var k :| 0 <= k < |init| && IsHit(init[k]) && line == HitText(init[k]);
        assert attempts[k] == init[k];
      }
      if exists k :: 0 <= k < |attempts| && IsHit(attempts[k]) && line == HitText(attempts[k]) {
        var k :| 0 <= k < |attempts| && IsHit(attempts[k]) && line == HitText(attempts[k]);
        if k < |init| {
          assert init[k] == attempts[k];
        }
      }
    }
  }

  /** `line` is the hit line of endpoint `ep` probed with catalog header `h`:
      the bypass status differs from the baseline status, and the line reads
      "<method> <url> (<header>) → baseline=<status>, bypass=<status>". */
  predicate IsHitLineFor(ep: Endpoint, h: Header, probe: Prober, line: string) {
    var status := probe(ep.httpMethod, ep.url, map[h.name := h.value]);
    && status != Baseline(ep, probe)
    && line == ep.httpMethod + " " + ep.url + " (" + h.name + ") → baseline=" + Baseline(ep, probe) + ", bypass=" + status
  }

  /** Every hit line is the hit line of some endpoint and catalog header. */
  lemma {:induction false} HitSound(eps: seq<Endpoint>, probe: Prober, line: string)
    requires line in HitLines(Attempts(eps, probe))
    ensures exists i, j :: 0 <= i < |eps| && 0 <= j < |BypassHeaders| && IsHitLineFor(eps[i], BypassHeaders[j], probe, line)
  {
    var all := Attempts(eps, probe);
    HitLinesMembership(all, line);
    AttemptsLength(eps, probe);
    var k :| 0 <= k < |all| && IsHit(all[k]) && line == HitText(all[k]);
    assert 0 <= k / 7 < |eps| && k == 7 * (k / 7) + k % 7;
    AttemptIndex(eps, probe, k / 7, k % 7);
    assert IsHitLineFor(eps[k / 7], BypassHeaders[k % 7], probe, line);
  }

  /** The hit line of every endpoint and catalog header whose status differs
      from the baseline is reported. */
  lemma {:induction false} HitComplete(eps: seq<Endpoint>, probe: Prober, line: string, i: int, j: int)
    requires 0 <= i < |eps| && 0 <= j < |BypassHeaders| && IsHitLineFor(eps[i], BypassHeaders[j], probe, line)
    ensures line in HitLines(Attempts(eps, probe))
  {
    var all := Attempts(eps, probe);
    AttemptIndex(eps, probe, i, j);
    HitLinesMembership(all, line);
    assert IsHit(all[7 * i + j]) && line == HitText(all[7 * i + j]);
  }

  /** A line is a hit exactly when it is the hit line of some endpoint and
      some catalog header. */
  lemma {:induction false} HitMembership(eps: seq<Endpoint>, probe: Prober, line: string)
    ensures line in HitLines(Attempts(eps, probe)) <==>
              exists i, j :: 0 <= i < |eps| && 0 <= j < |BypassHeaders| && IsHitLineFor(eps[i], BypassHeaders[j], probe, line)
  {
    if line in HitLines(Attempts(eps, probe)) {
      HitSound(eps, probe, line);
    }
    if exists i, j :: 0 <= i < |eps| && 0 <= j < |BypassHeaders| && IsHitLineFor(eps[i], BypassHeaders[j], probe, line) {
      var i, j :| 0 <= i < |eps| && 0 <= j < |BypassHeaders| && IsHitLineFor(eps[i], BypassHeaders[j], probe, line);
      HitComplete(eps, probe, line, i, j);
    }
  }

  lemma {:induction false} HitLinesEmpty(attempts: seq<Attempt>)
    requires forall k :: 0 <= k < |attempts| ==> !IsHit(attempts[k])
    ensures HitLines(attempts) == []
    decreases |attempts|
  {
    if attempts != [] {
      var init := attempts[..|attempts| - 1];
      assert forall k :: 0 <= k < |init| ==> init[k] == attempts[k];
      HitLinesEmpty(init);
    }
  }

  /** A target whose answer does not depend on the request headers yields no
      bypass hit. */
  lemma {:induction false} NoHitsWhenHeadersIgnored(eps: seq<Endpoint>, probe: Prober)
    requires forall m, u, h :: probe(m, u, h) == probe(m, u, map[])
    ensures HitLines(Attempts(eps, probe)) == []
  {
    var all := Attempts(eps, probe);
    AttemptsLength(eps, probe);
    forall k | 0 <= k < |all| ensures !IsHit(all[k]) {
      assert 0 <= k / 7 < |eps| && k == 7 * (k / 7) + k % 7;
      AttemptIndex(eps, probe, k / 7, k % 7);
    }
    HitLinesEmpty(all);
  }

  /** An unreachable target ("ERR" for every request) yields no bypass hit. */
  lemma {:induction false} NoHitsWhenUnreachable(eps: seq<Endpoint>, probe: Prober)
    requires forall m, u, h :: probe(m, u, h) == "ERR"
    ensures HitLines(Attempts(eps, probe)) == []
  {
    NoHitsWhenHeadersIgnored(eps, probe);
  }

  /** A URL is an IDOR candidate exactly when some endpoint with that URL has
      a path the heuristic flags. */
  lemma {:induction false} IdorMembership(eps: seq<Endpoint>, url: string)
    ensures url in IdorUrls(eps) <==> exists i :: 0 <= i < |eps| && eps[i].url == url && IdorHint(eps[i].path)
    decreases |eps|
  {
    if eps != [] {
      var init := eps[..|eps| - 1];
      IdorMembership(init, url);
      if exists i :: 0 <= i < |init| && init[i].url == url && IdorHint(init[i].path) {
        var i :| 0 <= i < |init| && init[i].url == url && IdorHint(init[i].path);
        assert eps[i] == init[i];
      }
      if exists i :: 0 <= i < |eps| && eps[i].url == url && IdorHint(eps[i].path) {
        var i :| 0 <= i < |eps| && eps[i].url == url && IdorHint(eps[i].path);
        if i < |init| {
          assert init[i] == eps[i];
        }
      }
    }
  }

  /** The positions of the endpoints whose path the IDOR heuristic flags. */
  function IdorPositions(eps: seq<Endpoint>): set<int> {
    set i | 0 <= i < |eps| && IdorHint(eps[i].path)
  }

  lemma IdorPositionsSnoc(eps: seq<Endpoint>)
    requires eps != []
    ensures var n := |eps| - 1;
      IdorPositions(eps) == IdorPositions(eps[..n]) + (if IdorHint(eps[n].path) then {n} else {})
  {
    var n := |eps| - 1;
    assert forall i :: 0 <= i < n ==> eps[..n][i] == eps[i];
  }

  /** There is one IDOR candidate per flagged endpoint. */
  lemma {:induction false} IdorCount(eps: seq<Endpoint>)
    ensures |IdorUrls(eps)| == |IdorPositions(eps)|
    decreases |eps|
  {
    if eps != [] {
      var n := |eps| - 1;
      IdorCount(eps[..n]);
      IdorPositionsSnoc(eps);
      assert n !in IdorPositions(eps[..n]);
    }
  }
}
