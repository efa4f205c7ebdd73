# blacklight core in Dafny

blacklight is a small API security scanner. It reads an OpenAPI document,
lists every declared operation as an endpoint (upper-cased method, absolute
URL, raw path), and probes each endpoint three ways:

- once without credentials (the baseline);
- once with the user's credentials (a bearer token, or else a cookie);
- once with each of the seven headers of a fixed bypass catalog
  (`X-Forwarded-For`, `X-Originating-IP`, `X-Client-IP`, `X-Remote-IP`,
  `Forwarded`, a fake `Authorization` and a fake `Cookie`).

A bypass probe whose status string differs from the baseline status is an
"auth bypass hit". An endpoint whose path contains both braces, or one of the
keywords `user`, `account`, `project`, `org`, `team`, `profile` in any letter
case, is listed as an IDOR (insecure direct object reference) candidate.

This project models that core and proves what it computes.

- `strings.dfy` (module `Strings`) holds the pieces of Go's `strings` package
  the core uses: `ToLower`, `ToUpper`, `Contains` and `TrimRight`.
- `parser.dfy` (module `Parser`) holds the endpoint extraction loop of
  `ParseOpenAPISpec`. It starts from an already-decoded document. Go visits
  map keys in an unspecified order, and the method picks each next key
  arbitrarily. Its contract holds for every visiting order. It says the
  result lists each (path key, method key) pair exactly once. Its length,
  membership and shape are then proved from that; no order is claimed.
- `tester.dfy` (module `Tester`) holds the `Results` record, the bypass
  catalog, the IDOR heuristic, and `RunTests`. It is a method with the
  source's nested loops; the inner loop over the catalog is the method
  `ProbeBypassHeaders`. The HTTP request is a parameter:
  `probe(method, url, headers)` returns the status string, or "ERR".
  `RunTests` is tied to specification functions (`Entries`, `Attempts`,
  `BypassEntries`, `HitLines`, `IdorUrls`). The lemmas state what those lists
  hold: seven bypass entries per endpoint at index `7 * i + j`, hits exactly
  where the status changes, and the IDOR candidates exactly the flagged
  endpoints' URLs.

## Model

| member | source | states |
|---|---|---|
| Strings.ToLower | tester/tester.go:120 | the result has the input's length, and each character is the ASCII lower-case form of the input's character |
| Strings.ToUpper | parser/parser.go:41 | the result has the input's length, and each character is the ASCII upper-case form of the input's character |
| Strings.ContainsIff | tester/tester.go:128 | `Contains(s, sub)` holds exactly when `sub` occurs in `s` at some offset |
| Strings.ContainsChar | tester/tester.go:122 | a one-character substring is contained exactly when that character is an element |
| Strings.TrimRight | parser/parser.go:39 | the result is a prefix of the input; it does not end in a cutset character; every removed character is in the cutset |
| Parser.ParseOpenAPISpec | parser/parser.go:27-48 | the error "no paths found in spec" is returned exactly when "paths" is missing or not an object; otherwise the endpoints list every (path key, method key) pair of object-valued paths exactly once, in some order, as (upper-cased key, trimmed base + path, path) |
| Parser.AppendPathEndpoints | parser/parser.go:38-45 | the inner loop keeps the list so far as a prefix and appends one endpoint per key of the path, each with that path and the URL trimmed base + path; afterwards the list covers exactly the operations of the visited paths and this one, each once |
| Parser.EndpointCount | parser/parser.go:33-46 | the number of endpoints equals the number of (path key, method key) pairs under object-valued paths |
| Parser.EndpointCountIsKeyTotal | parser/parser.go:33-46 | the number of endpoints is the sum, over all path keys, of the key counts of object-valued paths |
| Parser.OperationsInCard | parser/parser.go:33-45 | the operations of a set of paths are as many as the sum of their key counts |
| Parser.EndpointMembership | parser/parser.go:33-46 | an endpoint is listed exactly when some (path, key) pair of the document produces it |
| Parser.EndpointShape | parser/parser.go:39-43 | every endpoint's path is an object-valued path key; its method is one of that path's keys upper-cased; its URL is the trimmed base followed by the path, so it ends with the path and the base part has no trailing slash |
| Parser.NonObjectPathSkipped | parser/parser.go:34-37 | a path whose value is not an object contributes no endpoint |
| Parser.EveryKeyEmitted | parser/parser.go:38-45 | every key of an object-valued path yields its endpoint, non-verb keys such as "parameters" included |
| Tester.AuthHeaders | tester/tester.go:45-52 | a non-empty token gives `Authorization: Bearer <token>`; else a non-empty cookie gives `Cookie: <cookie>`; else the header set is empty |
| Tester.ContainsIDORHint | tester/tester.go:119-134 | the early-return loop over the keywords computes the heuristic `IdorHint` |
| Tester.ContainsAnyKeywordIff | tester/tester.go:126-131 | the keyword scan succeeds exactly when some keyword occurs at some offset |
| Tester.IdorHintIff | tester/tester.go:119-134 | a path is flagged exactly when it contains both `{` and `}` (anywhere, unmatched) or its lower-cased form contains one of the six keywords |
| Tester.LowerKeepsBraces | tester/tester.go:120-122 | lower-casing neither adds nor removes braces |
| Tester.IdorHintIgnoresCase | tester/tester.go:120 | upper- or lower-casing a path does not change the verdict |
| Tester.IdorHintUnmatchedBraces | tester/tester.go:122-124 | "/a}/{b" is flagged |
| Tester.IdorHintUpperKeyword | tester/tester.go:126-129 | "/ORG/settings" is flagged |
| Tester.IdorHintPlainPath | tester/tester.go:119-134 | "/health" is not flagged |
| Tester.LastKey | tester/tester.go:68-71 | the key loop over a header set yields "" for an empty set and otherwise one of its keys (for a catalog entry, its only key) |
| Tester.RunTests | tester/tester.go:31-101 | the five lists are the unauthenticated and the authenticated entries, the bypass entries and hit lines of all catalog probes in endpoint-major order, and the flagged URLs; without credentials the authenticated list equals the unauthenticated one |
| Tester.ProbeBypassHeaders | tester/tester.go:66-80 | the inner loop appends one bypass entry per catalog header and one hit line per status that differs from the baseline, in catalog order |
| Tester.EntriesAt | tester/tester.go:54-64 | the unauthenticated and authenticated lists have one entry per endpoint, in input order, labelled with its URL and holding its probe's status |
| Tester.AttemptIndex | tester/tester.go:54-67 | a run makes seven bypass probes per endpoint, and the one for endpoint `i` and catalog header `j` is at `7 * i + j` |
| Tester.BypassAt | tester/tester.go:66-73 | the bypass list has `7 * len(endpoints)` entries; entry `7 * i + j` is labelled `URL + " (" + header name + ")"` and holds the status with that header set |
| Tester.HitCount | tester/tester.go:75-79 | there are exactly as many hits as (endpoint `i`, catalog header `j`) pairs, named `7 * i + j`, whose bypass status differs from the endpoint's baseline status, so at most `7 * len(endpoints)` |
| Tester.HitSound | tester/tester.go:75-78 | every hit line is "<method> <url> (<header>) → baseline=<status>, bypass=<status>" for some endpoint and catalog header whose status changed |
| Tester.HitComplete | tester/tester.go:75-78 | every endpoint and catalog header whose status differs from the baseline has its hit line reported |
| Tester.HitMembership | tester/tester.go:75-78 | a line is a hit exactly when it is the hit line of some endpoint and catalog header |
| Tester.NoHitsWhenHeadersIgnored | tester/tester.go:75 | a target whose answer does not depend on the headers yields no hit |
| Tester.NoHitsWhenUnreachable | tester/tester.go:103-117 | when every request answers "ERR", there is no hit |
| Tester.IdorMembership | tester/tester.go:82-85 | a URL is a candidate exactly when some endpoint with that URL has a flagged path |
| Tester.IdorCount | tester/tester.go:82-85 | there is one candidate per flagged endpoint |

## Left out

- doRequest (tester/tester.go:103-117) is not modelled. The real request, the 5-second client timeout and `http.StatusText` become the parameter `probe`. Because `probe` is a function, the same request always gets the same answer. The property "without credentials `auth` equals `unauth`" rests on that; a live server may answer two identical requests differently. The hit lemmas rest on it too: `Baseline` asks `probe` again for the unauthenticated status, where tester/tester.go:75 compares with the status recorded earlier in the same iteration. Two endpoints with the same method and URL (for example keys "get" and "GET" under one path) also always get the same answers.
- Logging is left out: `utils.LogInfo`, `LogWarn`, `LogSuccess` and the `LogCritical` summary (tester/tester.go:40-41, 56, 59, 63, 72, 83, 88-98). It is console output only.
- `os.ReadFile` and `json.Unmarshal` (parser/parser.go:17-25) are I/O and library calls. The model starts from the decoded top-level object, so read errors and malformed documents are not modelled.
- Parser.Json: decoded JSON values are only told apart as "object with members" or "anything else", which is all the loop inspects.
- Parser.ParseOpenAPISpec: Go visits map keys in an unspecified order. The model chooses each next key arbitrarily and promises no order; Go's nil result slice for an empty "paths" object is the empty sequence.
- Strings.ToLower and Strings.ToUpper map only the ASCII letters. Go's functions also map other Unicode letters, so `EndpointOf` and `IdorHint` agree with the source on ASCII text only.
- Strings.TrimRight works on characters; Go's works on the UTF-8 runes of the cutset.
- Tester.ProbeBypassHeaders and Parser.AppendPathEndpoints are the source's inner loops, written as separate methods; the first takes the catalog as a parameter, and `RunTests` passes `BypassHeaders`.
- The `[2]string` pairs of `Results` are the datatype `Entry(subject, status)`, and the `%s` formatting of a hit line is string concatenation.
- main.go, tui/tui.go, reporter/reporter.go and utils/logger.go are not part of this model (CLI flags, concurrency, the terminal UI, file output). main.go:49 calls `tester.RunTestsWithProgress`, which tester/tester.go does not define; it is not modelled.
