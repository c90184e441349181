/**
 * The request callback: pick the first route whose method and path pattern
 * accept the request, fill in `req.params` and `req.query` from the
 * pattern's named groups, run the handler, or answer 404.
 *
 * The compiled path patterns and the query-string parser are not modelled;
 * they are parameters: `Matcher(template, url)` gives the named groups of
 * the compiled pattern's match on `url`, or `None` when the pattern does not
 * accept it, and `QueryParser` turns a raw query string into its pairs.
 */
module Server {
  import opened Wrappers
  import opened Store
  import opened Http
  import opened Routes

  type Matcher = (string, string) -> Option<map<string, string>>
  type QueryParser = string -> map<string, string>

  /** `route.verb === verb && route.path.test(url)` */
  predicate Accepts(route: Route, verb: string, url: string, matcher: Matcher)
  {
    route.verb == verb && matcher(route.path, url).Some?
  }

  /** `routes.find(...)`, as the index of the first accepting route. */
  function FindRoute(routes: seq<Route>, verb: string, url: string, matcher: Matcher): (r: Option<nat>)
    ensures r.Some? ==> r.value < |routes| && Accepts(routes[r.value], verb, url, matcher)
    ensures forall j :: 0 <= j < |routes| && (r.None? || j < r.value) ==> !Accepts(routes[j], verb, url, matcher)
  {
    if routes == [] then None
    else if Accepts(routes[0], verb, url, matcher) then Some(0)
    else
      match FindRoute(routes[1..], verb, url, matcher)
      case None => None
      case Some(k) => Some(k + 1)
  }

  /** Each method has one route: the request goes to it exactly when its pattern accepts the URL. */
  lemma RouteForMethod(verb: string, url: string, matcher: Matcher)
    ensures var r := FindRoute(RouteTable, verb, url, matcher);
      && (r == Some(0) <==> verb == "POST" && matcher("/tasks", url).Some?)
      && (r == Some(1) <==> verb == "GET" && matcher("/tasks", url).Some?)
      && (r == Some(2) <==> verb == "PATCH" && matcher("/tasks/:id", url).Some?)
      && (r == Some(3) <==> verb == "DELETE" && matcher("/tasks/:id", url).Some?)
      && (r.None? <==>
            && !(verb in {"POST", "GET"} && matcher("/tasks", url).Some?)
            && !(verb in {"PATCH", "DELETE"} && matcher("/tasks/:id", url).Some?))
  {
    var r := FindRoute(RouteTable, verb, url, matcher);
    assert RouteTable[0].verb == "POST" && RouteTable[1].verb == "GET";
    assert RouteTable[2].verb == "PATCH" && RouteTable[3].verb == "DELETE";
    if r.Some? {
      assert r.value < 4;
    }
  }

  /** `const { query, ...params } = groups`: every named group but `query`. */
  function Params(groups: map<string, string>): (p: map<string, string>)
    ensures p.Keys == groups.Keys - {"query"}
    ensures forall k :: k in p ==> p[k] == groups[k]
  {
    groups - {"query"}
  }

  /** `query ? extractQueryParams(query) : {}` */
  function QueryOf(groups: map<string, string>, parse: QueryParser): map<string, string>
  {
    if "query" in groups && groups["query"] != [] then parse(groups["query"]) else map[]
  }

  /** A request routed to GET carries a search that `decodeURIComponent` accepts. */
  predicate SearchSafe(verb: string, url: string, matcher: Matcher, parse: QueryParser)
  {
    var r := FindRoute(RouteTable, verb, url, matcher);
    r.Some? && RouteTable[r.value].handler == ListTasks ==>
      SearchDecodes(SearchOf(QueryOf(matcher(RouteTable[r.value].path, url).value, parse)))
  }

  method Serve(db: Database, req: Request, matcher: Matcher, parse: QueryParser, freshId: string, now: int)
    returns (res: Response)
    requires db.Valid()
    requires SearchSafe(req.verb, req.url, matcher, parse)
    modifies db, req, req.body
    ensures db.Valid() && Consistent(res)
    ensures FindRoute(RouteTable, req.verb, req.url, matcher).None? ==>
      && res == NotFound()
      && db.tables == old(db.tables) && db.snapshots == old(db.snapshots)
      && req.params == old(req.params) && req.query == old(req.query)
      && req.body.fields == old(req.body.fields)
    ensures FindRoute(RouteTable, req.verb, req.url, matcher).Some? ==>
      var route := RouteTable[FindRoute(RouteTable, req.verb, req.url, matcher).value];
      var groups := matcher(route.path, req.url).value;
      var s := HandlerStep(route.handler, old(db.tables), old(req.body.fields),
                           Params(groups), QueryOf(groups, parse), freshId, now);
      && req.params == Params(groups) && req.query == QueryOf(groups, parse)
      && res == s.response && db.tables == s.tables && req.body.fields == s.body
      && db.snapshots == old(db.snapshots) + (if s.persisted then [db.tables] else [])
  {
    var found := FindRoute(RouteTable, req.verb, req.url, matcher);
    if found.Some? {
      var route := RouteTable[found.value];
      var groups := matcher(route.path, req.url).value;
      req.params := Params(groups);
      req.query := QueryOf(groups, parse);
      res := Invoke(route.handler, db, req, freshId, now);
      return;
    }
    res := NotFound();
  }
}
