/** Endpoint discovery from an OpenAPI document that has already been read
    from disk and decoded from JSON (parser/parser.go). Go visits the keys of
    a map in an unspecified order, so the endpoint list is specified as some
    enumeration of the document's (path, method key) pairs, never as one
    particular order. */
module Parser {
  import opened Strings

  /** A decoded JSON value, as far as endpoint discovery looks at it: an
      object with its members, or anything else (array, string, number,
      boolean, null). */
  datatype Json = Object(members: map<string, Json>) | NonObject

  /** One declared operation: the upper-cased method, the absolute URL and
      the raw path key. */
  datatype Endpoint = Endpoint(httpMethod: string, url: string, path: string)

  datatype Result<T> = Ok(value: T) | Err(msg: string)

  const NoPathsError := "no paths found in spec"

  /** A method key under a path key of the "paths" object. */
  datatype Operation = Operation(path: string, key: string)

  predicate IsOperation(paths: map<string, Json>, op: Operation) {
    op.path in paths && paths[op.path].Object? && op.key in paths[op.path].members
  }

  /** Every operation of the document, one per (path key, method key) pair. */
  function Operations(paths: map<string, Json>): set<Operation> {
    set p, m | p in paths && paths[p].Object? && m in paths[p].members :: Operation(p, m)
  }

  /** The endpoint the loop emits for one operation. */
  function EndpointOf(baseURL: string, op: Operation): Endpoint {
    Endpoint(ToUpper(op.key), TrimRight(baseURL, "/") + op.path, op.path)
  }

  predicate Distinct<T(==)>(s: seq<T>) {
    forall a, b :: 0 <= a < b < |s| ==> s[a] != s[b]
  }

  /** `endpoints` lists the operations of `paths` in the order `order`, each
      operation exactly once. */
  ghost predicate Enumerates(paths: map<string, Json>, baseURL: string, endpoints: seq<Endpoint>, order: seq<Operation>) {
    && |order| == |endpoints|
    && Distinct(order)
    && (forall k :: 0 <= k < |order| ==> endpoints[k] == EndpointOf(baseURL, order[k]))
    && (forall op :: op in order <==> IsOperation(paths, op))
  }

  predicate HasPaths(spec: map<string, Json>) {
    "paths" in spec && spec["paths"].Object?
  }

  /** The part of ParseOpenAPISpec after JSON decoding: reject a document
      without a "paths" object, skip a path whose value is not an object, and
      emit one endpoint for every key under each remaining path. */
  method ParseOpenAPISpec(spec: map<string, Json>, baseURL: string) returns (r: Result<seq<Endpoint>>)
    ensures r.Err? <==> !HasPaths(spec)
    ensures r.Err? ==> r.msg == NoPathsError
    ensures r.Ok? ==> exists order :: Enumerates(spec["paths"].members, baseURL, r.value, order)
  {
    if !HasPaths(spec) {
      return Err(NoPathsError);
    }
    var paths := spec["paths"].members;
    var endpoints: seq<Endpoint> := [];
    ghost var order: seq<Operation> := [];
    var pending := paths.Keys;
    ghost var visited: set<string> := {};
    while pending != {}
      invariant pending + visited == paths.Keys && pending !! visited
      invariant Lists(baseURL, endpoints, order)
      invariant Covers(paths, order, visited, "", {})
      decreases |pending|
    {
      var path :| path in pending;
      pending := pending - {path};
      var rawMethods := paths[path];
      if rawMethods.Object? {
        endpoints, order := AppendPathEndpoints(paths, baseURL, path, endpoints, order, visited);
      } else {
        // a path whose value is not an object is skipped
        CoversClose(paths, order, visited, path, {});
      }
      visited := visited + {path};
    }
    assert visited == paths.Keys;
    assert Enumerates(paths, baseURL, endpoints, order);
    return Ok(endpoints);
  }

  /** `endpoints[k]` is the endpoint of `order[k]`, and no operation repeats. */
  ghost predicate Lists(baseURL: string, endpoints: seq<Endpoint>, order: seq<Operation>) {
    && |order| == |endpoints|
    && Distinct(order)
    && (forall k :: 0 <= k < |order| ==> endpoints[k] == EndpointOf(baseURL, order[k]))
  }

  /** `order` holds exactly the operations of the paths in `visited`, and the
      operations of `path` whose key is in `seen`. */
  ghost predicate Covers(paths: map<string, Json>, order: seq<Operation>, visited: set<string>, path: string, seen: set<string>) {
    forall op :: op in order <==> (op.path in visited && IsOperation(paths, op)) || (op.path == path && op.key in seen)
  }

  lemma CoversStep(paths: map<string, Json>, order: seq<Operation>, visited: set<string>, path: string, seen: set<string>, key: string)
    requires Covers(paths, order, visited, path, seen) && path !in visited && key !in seen
    ensures Operation(path, key) !in order
    ensures Covers(paths, order + [Operation(path, key)], visited, path, seen + {key})
  {
  }

  lemma CoversClose(paths: map<string, Json>, order: seq<Operation>, visited: set<string>, path: string, seen: set<string>)
    requires Covers(paths, order, visited, path, seen) && path in paths
    requires seen == (if paths[path].Object? then paths[path].members.Keys else {})
    ensures Covers(paths, order, visited + {path}, "", {})
  {
  }

  lemma ListsSnoc(baseURL: string, endpoints: seq<Endpoint>, order: seq<Operation>, op: Operation)
    requires Lists(baseURL, endpoints, order) && op !in order
    ensures Lists(baseURL, endpoints + [EndpointOf(baseURL, op)], order + [op])
  {
  }

  /** `result` is `endpoints` followed by endpoints of path `path` at URL `url`. */
  predicate Extends(endpoints: seq<Endpoint>, result: seq<Endpoint>, path: string, url: string) {
    && |endpoints| <= |result|
    && result[..|endpoints|] == endpoints
    && forall k :: |endpoints| <= k < |result| ==> result[k].path == path && result[k].url == url
  }

  lemma ExtendsSnoc(endpoints: seq<Endpoint>, result: seq<Endpoint>, path: string, url: string, e: Endpoint)
    requires Extends(endpoints, result, path, url) && e.path == path && e.url == url
    ensures Extends(endpoints, result + [e], path, url)
  {
    assert (result + [e])[..|endpoints|] == result[..|endpoints|];
  }

  /** The inner loop of ParseOpenAPISpec: one endpoint for every key of the
      object-valued path `path`, appended in the map's iteration order. */
  method AppendPathEndpoints(paths: map<string, Json>, baseURL: string, path: string, endpoints: seq<Endpoint>,
                             ghost order: seq<Operation>, ghost visited: set<string>)
    returns (result: seq<Endpoint>, ghost order': seq<Operation>)
    requires path in paths && paths[path].Object? && path !in visited
    requires Lists(baseURL, endpoints, order) && Covers(paths, order, visited, "", {})
    ensures Lists(baseURL, result, order') && Covers(paths, order', visited + {path}, "", {})
    ensures |result| == |endpoints| + |paths[path].members| && result[..|endpoints|] == endpoints
    ensures forall k :: |endpoints| <= k < |result| ==>
              result[k].path == path && result[k].url == TrimRight(baseURL, "/") + path
  {
    result, order' := endpoints, order;
    var methods := paths[path].members;
    var todo := methods.Keys;
    ghost var seen: set<string> := {};
    while todo != {}
      invariant todo + seen == methods.Keys && todo !! seen
      invariant Lists(baseURL, result, order')
      invariant Covers(paths, order', visited, path, seen)
      invariant |result| == |endpoints| + |seen|
      invariant Extends(endpoints, result, path, TrimRight(baseURL, "/") + path)
      decreases |todo|
    {
      var key :| key in todo;
      todo := todo - {key};
      var url := TrimRight(baseURL, "/") + path;
      CoversStep(paths, order', visited, path, seen, key);
      ListsSnoc(baseURL, result, order', Operation(path, key));
      ExtendsSnoc(endpoints, result, path, url, Endpoint(ToUpper(key), url, path));
      result := result + [Endpoint(ToUpper(key), url, path)];
      order' := order' + [Operation(path, key)];
      seen := seen + {key};
    }
    CoversClose(paths, order', visited, path, seen);
    assert seen == methods.Keys;
  }

  /** The elements of a sequence without repetitions are as many as its length. */
  lemma {:induction false} DistinctCard<T>(s: seq<T>)
    requires Distinct(s)
    ensures |set x | x in s| == |s|
    decreases |s|
  {
    if s != [] {
      var t := s[..|s| - 1];
      DistinctCard(t);
      assert (set x | x in s) == (set x | x in t) + {s[|s| - 1]};
      assert s[|s| - 1] !in t;
    }
  }

  /** The endpoint list has one entry per (path key, method key) pair. */
  lemma EndpointCount(paths: map<string, Json>, baseURL: string, endpoints: seq<Endpoint>, order: seq<Operation>)
    requires Enumerates(paths, baseURL, endpoints, order)
    ensures |endpoints| == |Operations(paths)|
  {
    DistinctCard(order);
    assert (set x | x in order) == Operations(paths);
  }

  /** An endpoint is listed exactly when some operation of the document
      produces it. */
  lemma EndpointMembership(paths: map<string, Json>, baseURL: string, endpoints: seq<Endpoint>, order: seq<Operation>, e: Endpoint)
    requires Enumerates(paths, baseURL, endpoints, order)
    ensures e in endpoints <==> exists op :: IsOperation(paths, op) && e == EndpointOf(baseURL, op)
  {
    if e in endpoints {
      var k :| 0 <= k < |endpoints| && endpoints[k] == e;
      assert order[k] in order;
    }
    if exists op :: IsOperation(paths, op) && e == EndpointOf(baseURL, op) {
      var op :| IsOperation(paths, op) && e == EndpointOf(baseURL, op);
      var k :| 0 <= k < |order| && order[k] == op;
      assert endpoints[k] == e;
    }
  }

  /** Every listed endpoint comes from an object-valued path: its method is
      one of that path's keys upper-cased, its path is the raw key, and its
      URL is the base without trailing slashes followed by the path. */
  lemma EndpointShape(paths: map<string, Json>, baseURL: string, endpoints: seq<Endpoint>, order: seq<Operation>, k: int)
    requires Enumerates(paths, baseURL, endpoints, order)
    requires 0 <= k < |endpoints|
    ensures endpoints[k].path in paths && paths[endpoints[k].path].Object?
    ensures exists m :: m in paths[endpoints[k].path].members && endpoints[k].httpMethod == ToUpper(m)
    ensures endpoints[k].url == TrimRight(baseURL, "/") + endpoints[k].path
    ensures |endpoints[k].path| <= |endpoints[k].url|
    ensures endpoints[k].url[|endpoints[k].url| - |endpoints[k].path|..] == endpoints[k].path
    ensures var b := endpoints[k].url[..|endpoints[k].url| - |endpoints[k].path|]; b == [] || b[|b| - 1] != '/'
  {
    assert order[k] in order;
    var e := endpoints[k];
    var b := TrimRight(baseURL, "/");
    assert e.url == b + e.path;
    assert e.url[..|b|] == b;
  }

  /** A path whose value is not an object contributes no endpoint. */
  lemma NonObjectPathSkipped(paths: map<string, Json>, baseURL: string, endpoints: seq<Endpoint>, order: seq<Operation>, p: string)
    requires Enumerates(paths, baseURL, endpoints, order)
    requires p in paths && !paths[p].Object?
    ensures forall e :: e in endpoints ==> e.path != p
  {
    forall e | e in endpoints ensures e.path != p {
      var k :| 0 <= k < |endpoints| && endpoints[k] == e;
      assert order[k] in order;
    }
  }

  /** Every key of an object-valued path yields an endpoint, a non-verb key
      such as "parameters" included. */
  lemma EveryKeyEmitted(paths: map<string, Json>, baseURL: string, endpoints: seq<Endpoint>, order: seq<Operation>, p: string, m: string)
    requires Enumerates(paths, baseURL, endpoints, order)
    requires p in paths && paths[p].Object? && m in paths[p].members
    ensures Endpoint(ToUpper(m), TrimRight(baseURL, "/") + p, p) in endpoints
  {
    assert IsOperation(paths, Operation(p, m));
    var k :| 0 <= k < |order| && order[k] == Operation(p, m);
    assert endpoints[k] == EndpointOf(baseURL, Operation(p, m));
  }

  /** The number of method keys under path `p`, or 0 when the path is missing
      or its value is not an object. */
  function KeyCount(paths: map<string, Json>, p: string): nat {
    if p in paths && paths[p].Object? then |paths[p].members| else 0
  }

  /** The sum of KeyCount over the path keys `keys`. */
  ghost function KeyTotal(paths: map<string, Json>, keys: set<string>): nat
    decreases keys
  {
    if keys == {} then 0
    else
      var p :| p in keys;
      KeyTotal(paths, keys - {p}) + KeyCount(paths, p)
  }

  /** KeyTotal does not depend on which key it takes out first. */
  lemma {:induction false} KeyTotalRemove(paths: map<string, Json>, keys: set<string>, q: string)
    requires q in keys
    ensures KeyTotal(paths, keys) == KeyTotal(paths, keys - {q}) + KeyCount(paths, q)
    decreases keys
  {
    var p :| p in keys && KeyTotal(paths, keys) == KeyTotal(paths, keys - {p}) + KeyCount(paths, p);
    if p != q {
      KeyTotalRemove(paths, keys - {p}, q);
      KeyTotalRemove(paths, keys - {q}, p);
      assert keys - {p} - {q} == keys - {q} - {p};
    }
  }

  /** The operations of path `p` whose key is in `ms`. */
  function OperationsAt(p: string, ms: set<string>): set<Operation> {
    set m | m in ms :: Operation(p, m)
  }

  lemma {:induction false} OperationsAtCard(p: string, ms: set<string>)
    ensures |OperationsAt(p, ms)| == |ms|
    decreases ms
  {
    if ms != {} {
      var m :| m in ms;
      OperationsAtCard(p, ms - {m});
      assert OperationsAt(p, ms) == OperationsAt(p, ms - {m}) + {Operation(p, m)};
    }
  }

  /** The operations of the paths in `keys`. */
  function OperationsIn(paths: map<string, Json>, keys: set<string>): set<Operation> {
    set op | op in Operations(paths) && op.path in keys
  }

  /** The operations of path `q`. */
  function OperationsOfPath(paths: map<string, Json>, q: string): set<Operation> {
    if q in paths && paths[q].Object? then OperationsAt(q, paths[q].members.Keys) else {}
  }

  lemma OperationsInSplit(paths: map<string, Json>, keys: set<string>, q: string)
    requires q in keys
    ensures OperationsIn(paths, keys) == OperationsIn(paths, keys - {q}) + OperationsOfPath(paths, q)
    ensures OperationsIn(paths, keys - {q}) !! OperationsOfPath(paths, q)
  {
  }

  lemma OperationsOfPathCard(paths: map<string, Json>, q: string)
    ensures |OperationsOfPath(paths, q)| == KeyCount(paths, q)
  {
    if q in paths && paths[q].Object? {
      OperationsAtCard(q, paths[q].members.Keys);
    }
  }

  lemma {:induction false} OperationsInCard(paths: map<string, Json>, keys: set<string>)
    ensures |OperationsIn(paths, keys)| == KeyTotal(paths, keys * paths.Keys)
    decreases keys
  {
    if keys == {} {
      assert OperationsIn(paths, keys) == {};
      assert keys * paths.Keys == {};
    } else {
      var q :| q in keys;
      OperationsInCard(paths, keys - {q});
      OperationsInSplit(paths, keys, q);
      OperationsOfPathCard(paths, q);
      if q in paths {
        KeyTotalRemove(paths, keys * paths.Keys, q);
        assert keys * paths.Keys - {q} == (keys - {q}) * paths.Keys;
      } else {
        assert keys * paths.Keys == (keys - {q}) * paths.Keys;
      }
    }
  }

  /** The endpoint count is the sum, over the path keys, of the number of
      method keys under each object-valued path. */
  lemma EndpointCountIsKeyTotal(paths: map<string, Json>, baseURL: string, endpoints: seq<Endpoint>, order: seq<Operation>)
    requires Enumerates(paths, baseURL, endpoints, order)
    ensures |endpoints| == KeyTotal(paths, paths.Keys)
  {
    EndpointCount(paths, baseURL, endpoints, order);
    OperationsInCard(paths, paths.Keys);
    assert OperationsIn(paths, paths.Keys) == Operations(paths);
    assert paths.Keys * paths.Keys == paths.Keys;
  }
}
