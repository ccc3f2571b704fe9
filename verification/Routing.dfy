/** The gateway's router: a table of path prefixes, tried longest first. */
module Routing {
  import opened Common
  import T = Text

  type Routes = map<string, string>

  /** An order in which a map may be visited. */
  ghost predicate Visits(order: seq<string>, routes: Routes) {
    (forall i, j :: 0 <= i < j < |order| ==> order[i] != order[j]) && forall p :: p in order <==> p in routes
  }

  /** What sort.Slice promises for longest first: it need not keep equal lengths in order. */
  ghost predicate LongestFirst(sorted: seq<string>, names: seq<string>) {
    multiset(sorted) == multiset(names) && forall i, j :: 0 <= i < j < |sorted| ==> |sorted[i]| >= |sorted[j]|
  }

  lemma SameElements(sorted: seq<string>, names: seq<string>)
    requires multiset(sorted) == multiset(names)
    ensures forall p :: p in sorted <==> p in names
  {
    forall p ensures p in sorted <==> p in names {
      assert p in sorted <==> p in multiset(sorted);
      assert p in names <==> p in multiset(names);
    }
  }

  /** The route a path is due: the longest registered prefix of it. */
  ghost predicate Due(prefixes: set<string>, path: string, p: string) {
    p in prefixes && T.HasPrefix(path, p) && forall q :: q in prefixes && T.HasPrefix(path, q) ==> |q| <= |p|
  }

  /** At most one route is due, and one is due exactly when some registered prefix matches. */
  lemma DueIsUnique(prefixes: set<string>, path: string, p: string, q: string)
    requires Due(prefixes, path, p) && Due(prefixes, path, q)
    ensures p == q
  {}

  /** The first match in a list. */
  function FirstMatch(prefixes: seq<string>, path: string): (p: Option<string>) {
    if prefixes == [] then None
    else if T.HasPrefix(path, prefixes[0]) then Some(prefixes[0])
    else FirstMatch(prefixes[1..], path)
  }

  /** In a list that has the longest first, the first match is the longest match. */
  lemma {:induction false} FirstMatchIsDue(prefixes: seq<string>, registered: set<string>, path: string)
    requires forall p :: p in prefixes <==> p in registered
    requires forall i, j :: 0 <= i < j < |prefixes| ==> |prefixes[i]| >= |prefixes[j]|
    ensures forall p :: FirstMatch(prefixes, path) == Some(p) <==> Due(registered, path, p)
    ensures FirstMatch(prefixes, path).None? <==> forall p :: p in registered ==> !T.HasPrefix(path, p)
  {
    var i := FirstMatchIsFirst(prefixes, path);
    var first := FirstMatch(prefixes, path);
    if first.Some? {
      forall q | q in registered && T.HasPrefix(path, q) ensures |q| <= |first.value| {
        assert q in prefixes;
        var k :| 0 <= k < |prefixes| && prefixes[k] == q;
      }
      forall p | Due(registered, path, p) ensures p == first.value {
        DueIsUnique(registered, path, p, first.value);
      }
    }
  }

  predicate MatchesFirstAt(prefixes: seq<string>, path: string, i: nat) {
    i < |prefixes| && T.HasPrefix(path, prefixes[i]) && forall k :: 0 <= k < i ==> !T.HasPrefix(path, prefixes[k])
  }

  lemma {:induction false} FirstMatchIsFirst(prefixes: seq<string>, path: string) returns (i: nat)
    ensures FirstMatch(prefixes, path).None? ==> forall p :: p in prefixes ==> !T.HasPrefix(path, p)
    ensures FirstMatch(prefixes, path).Some? ==> MatchesFirstAt(prefixes, path, i) && FirstMatch(prefixes, path) == Some(prefixes[i])
  {
    i := 0;
    if prefixes != [] && !T.HasPrefix(path, prefixes[0]) {
      var rest := prefixes[1..];
      var j := FirstMatchIsFirst(rest, path);
      i := j + 1;
      if FirstMatch(rest, path).Some? {
        forall k | 0 <= k < i ensures !T.HasPrefix(path, prefixes[k]) {
          if k > 0 { assert prefixes[k] == rest[k - 1]; }
        }
      }
    }
  }

  /** Whatever the visit of the table and however its sort breaks ties, every path gets the same
      route. */
  lemma OrderDoesNotMatter(routes: Routes, order1: seq<string>, sorted1: seq<string>,
                           order2: seq<string>, sorted2: seq<string>, path: string)
    requires Visits(order1, routes) && LongestFirst(sorted1, order1)
    requires Visits(order2, routes) && LongestFirst(sorted2, order2)
    ensures FirstMatch(sorted1, path) == FirstMatch(sorted2, path)
  {
    SameElements(sorted1, order1);
    SameElements(sorted2, order2);
    FirstMatchIsDue(sorted1, routes.Keys, path);
    FirstMatchIsDue(sorted2, routes.Keys, path);
    var a, b := FirstMatch(sorted1, path), FirstMatch(sorted2, path);
    if a.Some? { assert a == Some(a.value); }
    if b.Some? { assert b == Some(b.value); }
  }

  /** A target as url.Parse reads it; None is a parse error. */
  type Parser = string -> Option<string>

  class Router {
    var prefixes: seq<string>
    var proxies: map<string, string>

    constructor ()
      ensures prefixes == [] && proxies == map[]
    {
      prefixes, proxies := [], map[];
    }

    /** Every registered prefix is listed and has its upstream, longest first. */
    ghost predicate Serves(routes: Routes, parse: Parser)
      reads this
    {
      && proxies.Keys == routes.Keys
      && (forall p :: p in prefixes <==> p in routes)
      && (forall p :: p in routes ==> parse(routes[p]) == Some(proxies[p]))
      && (forall i, j :: 0 <= i < j < |prefixes| ==> |prefixes[i]| >= |prefixes[j]|)
    }

    /** The loop of New over the table. */
    method Register(routes: Routes, order: seq<string>, parse: Parser) returns (ok: bool)
      requires prefixes == [] && proxies == map[] && Visits(order, routes)
      modifies this
      ensures ok <==> forall p :: p in routes ==> parse(routes[p]).Some?
      ensures ok ==> prefixes == order && proxies.Keys == routes.Keys
      ensures ok ==> forall p :: p in routes ==> parse(routes[p]) == Some(proxies[p])
    {
      for i := 0 to |order|
        invariant prefixes == order[..i]
        invariant forall p :: p in proxies <==> p in prefixes
        invariant forall p :: p in proxies ==> p in routes && parse(routes[p]) == Some(proxies[p])
      {
        var prefix := order[i];
        assert prefix in order;
        var u := parse(routes[prefix]);
        if u.None? { return false; }
        prefixes := prefixes + [prefix];
        proxies := proxies[prefix := u.value];
      }
      assert prefixes == order;
      ok := true;
    }

    /** New on an empty router, for any visit of the table and any sorting algorithm: it fails if and
        only if some target does not parse. */
    method Build(routes: Routes, order: seq<string>, parse: Parser, sort: seq<string> -> seq<string>) returns (ok: bool)
      requires prefixes == [] && proxies == map[] && Visits(order, routes)
      requires forall names: seq<string> :: LongestFirst(sort(names), names)
      modifies this
      ensures ok <==> forall p :: p in routes ==> parse(routes[p]).Some?
      ensures ok ==> Serves(routes, parse)
    {
      ok := Register(routes, order, parse);
      if ok {
        prefixes := sort(prefixes);
        SameElements(prefixes, order);
      }
    }

    /** Tries the list in order. The upstream is that of the route that is due; no match means that no
        registered prefix matches. */
    method ServeHTTP(path: string, ghost routes: Routes, ghost parse: Parser) returns (upstream: Option<string>)
      requires Serves(routes, parse)
      ensures upstream.Some? ==> exists p :: Due(routes.Keys, path, p) && parse(routes[p]) == upstream
      ensures upstream.None? <==> forall p :: p in routes ==> !T.HasPrefix(path, p)
    {
      FirstMatchIsDue(prefixes, routes.Keys, path);
      for i := 0 to |prefixes|
        invariant FirstMatch(prefixes, path) == FirstMatch(prefixes[i..], path)
      {
        var prefix := prefixes[i];
        assert prefixes[i..][1..] == prefixes[i + 1..];
        if T.HasPrefix(path, prefix) {
          assert Due(routes.Keys, path, prefix);
          return Some(proxies[prefix]);
        }
      }
      return None;
    }
  }
}
