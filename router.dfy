/**
 * The router of handlers/handlers.go: per-method route tables filled in
 * registration order, segment-by-segment pattern matching with `{name}`
 * captures, query-string parsing, and first-match dispatch with a fixed
 * 405 page when nothing applies. Handlers are known only by name.
 */
module Router {
  import opened Wrappers
  import opened Strings
  import opened Maps
  import opened Request
  import Responses

  /** A handler function, identified by its name. */
  type HandlerId = string

  /** One registered route: a path pattern and the handler it leads to. */
  datatype HandlerInfo = HandlerInfo(pattern: string, handler: HandlerId)

  /**
   * What routing a request leads to: a call of a handler on the request
   * (with its path variables and query filled in), or the fixed page sent
   * back instead.
   */
  datatype RouteOutcome = Dispatch(handler: HandlerId, request: HttpRequest) | Fallback(response: string)

  const Get: string := "GET"
  const Put: string := "PUT"
  const Post: string := "POST"
  const Delete: string := "DELETE"

  /** The 405 page sent when the method is unsupported or no route matches. */
  const DefaultErrorPage: string :=
    Responses.ResponseMethodNotAllowed + Responses.CRLF + "<html><body><h1>405 METHOD NOT ALLOWED</h1></body></html>"

  // ---------------------------------------------------------------------
  // Path and query

  /**
   * Splits a request target at its first `?` into the path and the query
   * string; without a `?` the query is empty.
   */
  function SplitPathAndQuery(target: string): (r: (string, string))
    ensures '?' !in target ==> r == (target, "")
    ensures '?' in target ==> '?' !in r.0 && r.0 + "?" + r.1 == target
  {
    ContainsChar(target, '?');
    match Cut(target, "?")
    case None => (target, "")
    case Some((path, query)) =>
      ContainsChar(path, '?');
      (path, query)
  }

  /** The entry each `&`-separated pair contributes: key and value around its first `=`, if any. */
  function QueryEntries(pairs: seq<string>): (entries: seq<Option<(string, string)>>)
    ensures |entries| == |pairs|
    ensures forall i :: 0 <= i < |pairs| ==> entries[i] == Cut(pairs[i], "=")
  {
    seq(|pairs|, i requires 0 <= i < |pairs| => Cut(pairs[i], "="))
  }

  /** The query map: every `&`-pair holding a `=`, written in order. */
  function QueryParams(query: string): map<string, string>
  {
    FromEntries(QueryEntries(Split(query, "&")))
  }

  /** Builds the query map: splits the query on `&` and writes the pairs in order. */
  method ParseQueryParams(query: string) returns (params: map<string, string>)
    ensures params == QueryParams(query)
  {
    var pairs := Split(query, "&");
    params := ParsePairs(pairs);
  }

  /** The loop of ParseQueryParams: each pair holding a `=` is written into the map. */
  method ParsePairs(pairs: seq<string>) returns (params: map<string, string>)
    ensures params == FromEntries(QueryEntries(pairs))
  {
    params := map[];
    ghost var entries := QueryEntries(pairs);
    for i := 0 to |pairs|
      invariant params == FromEntries(entries[..i])
    {
      FromEntriesSnoc(entries[..i], entries[i]);
      assert entries[..i + 1] == entries[..i] + [entries[i]];
      var keyValue := Cut(pairs[i], "=");
      if keyValue.Some? {
        params := params[keyValue.value.0 := keyValue.value.1];
      }
    }
    assert entries[..|pairs|] == entries;
  }

  /** A query pair holds a `=`, and `key` is the text before its first one. */
  predicate PairHasKey(pair: string, key: string) {
    Cut(pair, "=").Some? && Cut(pair, "=").value.0 == key
  }

  /**
   * A key is in the query map exactly when some `&`-pair holds a `=` with
   * that key before its first `=`; such a key never contains `=`.
   */
  lemma QueryKeys(query: string, key: string)
    ensures key in QueryParams(query) ==>
      exists i :: 0 <= i < |Split(query, "&")| && PairHasKey(Split(query, "&")[i], key)
    ensures (exists i :: 0 <= i < |Split(query, "&")| && PairHasKey(Split(query, "&")[i], key)) ==>
      key in QueryParams(query)
    ensures key in QueryParams(query) ==> '=' !in key
  {
    var pairs := Split(query, "&");
    var entries := QueryEntries(pairs);
    FromEntriesKeys(entries, key);
    if key in QueryParams(query) {
      var i :| 0 <= i < |entries| && entries[i].Some? && entries[i].value.0 == key;
      assert PairHasKey(pairs[i], key);
      ContainsChar(key, '=');
    }
    if exists i :: 0 <= i < |pairs| && PairHasKey(pairs[i], key) {
      var i :| 0 <= i < |pairs| && PairHasKey(pairs[i], key);
      assert entries[i].Some? && entries[i].value.0 == key;
    }
  }

  /** The value of a key is the text after the first `=` of the last pair with that key. */
  lemma QueryLastPairWins(query: string, i: nat)
    requires i < |Split(query, "&")| && Cut(Split(query, "&")[i], "=").Some?
    requires forall j :: i < j < |Split(query, "&")| && Cut(Split(query, "&")[j], "=").Some? ==>
      Cut(Split(query, "&")[j], "=").value.0 != Cut(Split(query, "&")[i], "=").value.0
    ensures var (key, value) := Cut(Split(query, "&")[i], "=").value;
      key in QueryParams(query) && QueryParams(query)[key] == value
  {
    FromEntriesLastWins(QueryEntries(Split(query, "&")), i);
  }

  /** An empty query string gives an empty map. */
  lemma EmptyQueryHasNoParams()
    ensures QueryParams("") == map[]
  {
    SplitUnique("", '&', [""]);
    assert Cut("", "=").None? by { ContainsChar("", '='); }
  }

  // ---------------------------------------------------------------------
  // Pattern matching

  /** A capture segment: at least two characters, the first `{` and the last `}`. */
  predicate IsCapture(segment: string) {
    |segment| >= 2 && segment[0] == '{' && segment[|segment| - 1] == '}'
  }

  /** This is the router's test: the segment starts with `{` and ends with `}`. */
  lemma CaptureIsBraced(segment: string)
    ensures IsCapture(segment) <==> HasPrefix(segment, "{") && HasSuffix(segment, "}")
  {
    if HasPrefix(segment, "{") && HasSuffix(segment, "}") {
      assert segment[0] == segment[..1][0];
      assert segment[|segment| - 1] == segment[|segment| - 1..][0];
    }
    if IsCapture(segment) {
      assert segment[..1] == [segment[0]];
      assert segment[|segment| - 1..] == [segment[|segment| - 1]];
    }
  }

  /** The name a capture segment binds: the text between its braces. */
  function CaptureName(segment: string): (name: string)
    requires IsCapture(segment)
    ensures "{" + name + "}" == segment
  {
    assert segment == [segment[0]] + segment[1..|segment| - 1] + [segment[|segment| - 1]];
    segment[1..|segment| - 1]
  }

  /**
   * Pattern segments and path segments agree: there are as many of each,
   * and every pattern segment that is not a capture equals the path
   * segment at its index.
   */
  ghost predicate SegmentsAgree(patternParts: seq<string>, pathParts: seq<string>) {
    |patternParts| == |pathParts| &&
    forall i :: 0 <= i < |patternParts| && !IsCapture(patternParts[i]) ==> patternParts[i] == pathParts[i]
  }

  /** A path matches a pattern when their `/`-separated segments agree. */
  ghost predicate Matches(pattern: string, path: string) {
    SegmentsAgree(Split(pattern, "/"), Split(path, "/"))
  }

  /** The binding each pattern segment contributes: its capture name and the path segment, if it is a capture. */
  function CaptureEntries(patternParts: seq<string>, pathParts: seq<string>): (entries: seq<Option<(string, string)>>)
    requires |patternParts| == |pathParts|
    ensures |entries| == |patternParts|
    ensures forall i :: 0 <= i < |entries| ==>
      entries[i] == if IsCapture(patternParts[i]) then Some((CaptureName(patternParts[i]), pathParts[i])) else None
  {
    seq(|patternParts|, i requires 0 <= i < |patternParts| =>
      if IsCapture(patternParts[i]) then Some((CaptureName(patternParts[i]), pathParts[i])) else None)
  }

  /** The path variables: every capture's binding, written in segment order. */
  ghost function PathVars(pattern: string, path: string): map<string, string>
    requires |Split(pattern, "/")| == |Split(path, "/")|
  {
    FromEntries(CaptureEntries(Split(pattern, "/"), Split(path, "/")))
  }

  /**
   * Matches `path` against `pattern`: splits both on `/` and compares the
   * segments.
   */
  method MatchAndExtract(pattern: string, path: string) returns (vars: map<string, string>, matched: bool)
    ensures matched ==> Matches(pattern, path)
    ensures Matches(pattern, path) ==> matched
    ensures |Split(pattern, "/")| != |Split(path, "/")| ==> !matched
    ensures matched ==> vars == PathVars(pattern, path)
    ensures !matched ==> vars == map[]
  {
    var patternParts := Split(pattern, "/");
    var pathParts := Split(path, "/");
    vars, matched := MatchSegments(patternParts, pathParts);
  }

  /**
   * The segment loop of MatchAndExtract: collects the captures in order and
   * gives up (with an empty map) when the segment counts differ or at the
   * first literal segment that differs from the path's.
   */
  method MatchSegments(patternParts: seq<string>, pathParts: seq<string>) returns (vars: map<string, string>, matched: bool)
    ensures matched ==> SegmentsAgree(patternParts, pathParts)
    ensures SegmentsAgree(patternParts, pathParts) ==> matched
    ensures |patternParts| != |pathParts| ==> !matched
    ensures matched ==> |patternParts| == |pathParts| && vars == FromEntries(CaptureEntries(patternParts, pathParts))
    ensures !matched ==> vars == map[]
  {
    if |patternParts| != |pathParts| {
      return map[], false;
    }
    ghost var entries := CaptureEntries(patternParts, pathParts);
    vars := map[];
    for i := 0 to |patternParts|
      invariant vars == FromEntries(entries[..i])
      invariant forall j :: 0 <= j < i && !IsCapture(patternParts[j]) ==> patternParts[j] == pathParts[j]
    {
      FromEntriesSnoc(entries[..i], entries[i]);
      assert entries[..i + 1] == entries[..i] + [entries[i]];
      if IsCapture(patternParts[i]) {
        var key := patternParts[i][1..|patternParts[i]| - 1];
        vars := vars[key := pathParts[i]];
      } else if patternParts[i] != pathParts[i] {
        return map[], false;
      }
    }
    assert entries[..|patternParts|] == entries;
    return vars, true;
  }

  /**
   * A capture binds its name to the path segment at its index, unless a
   * later capture with the same name overrides it.
   */
  lemma CaptureBindsSegment(pattern: string, path: string, i: nat)
    requires Matches(pattern, path)
    requires i < |Split(pattern, "/")| && IsCapture(Split(pattern, "/")[i])
    requires forall j :: i < j < |Split(pattern, "/")| && IsCapture(Split(pattern, "/")[j]) ==>
      CaptureName(Split(pattern, "/")[j]) != CaptureName(Split(pattern, "/")[i])
    ensures var name := CaptureName(Split(pattern, "/")[i]);
      name in PathVars(pattern, path) && PathVars(pattern, path)[name] == Split(path, "/")[i]
  {
    FromEntriesLastWins(CaptureEntries(Split(pattern, "/"), Split(path, "/")), i);
  }

  /** A capture segment binding `name`. */
  predicate CapturesAs(segment: string, name: string) {
    IsCapture(segment) && CaptureName(segment) == name
  }

  /** The path variables are named exactly by the pattern's captures. */
  lemma PathVarNames(pattern: string, path: string, name: string)
    requires Matches(pattern, path)
    ensures name in PathVars(pattern, path) ==>
      exists i :: 0 <= i < |Split(pattern, "/")| && CapturesAs(Split(pattern, "/")[i], name)
    ensures (exists i :: 0 <= i < |Split(pattern, "/")| && CapturesAs(Split(pattern, "/")[i], name)) ==>
      name in PathVars(pattern, path)
  {
    var patternParts := Split(pattern, "/");
    var entries := CaptureEntries(patternParts, Split(path, "/"));
    FromEntriesKeys(entries, name);
    if name in PathVars(pattern, path) {
      var i :| 0 <= i < |entries| && entries[i].Some? && entries[i].value.0 == name;
      assert CapturesAs(patternParts[i], name);
    }
    if exists i :: 0 <= i < |patternParts| && CapturesAs(patternParts[i], name) {
      var i :| 0 <= i < |patternParts| && CapturesAs(patternParts[i], name);
      assert entries[i].Some? && entries[i].value.0 == name;
    }
  }

  /** A pattern without captures matches exactly the path that equals it. */
  lemma LiteralPatternMatchesOnlyItself(pattern: string, path: string)
    requires forall i :: 0 <= i < |Split(pattern, "/")| ==> !IsCapture(Split(pattern, "/")[i])
    ensures Matches(pattern, path) <==> pattern == path
  {
    SplitJoin(pattern, "/");
    SplitJoin(path, "/");
    if Matches(pattern, path) {
      assert Split(pattern, "/") == Split(path, "/");
    }
  }

  /** In particular a pattern without any `{` matches exactly itself. */
  lemma BraceFreePatternMatchesOnlyItself(pattern: string, path: string)
    requires '{' !in pattern
    ensures Matches(pattern, path) <==> pattern == path
  {
    var parts := Split(pattern, "/");
    forall i | 0 <= i < |parts| ensures !IsCapture(parts[i]) {
      if IsCapture(parts[i]) {
        SplitPartChars(pattern, "/", i, parts[i][0]);
      }
    }
    LiteralPatternMatchesOnlyItself(pattern, path);
  }

  // ---------------------------------------------------------------------
  // Dispatch

  /** Whether each route's pattern matches `path`, in registration order. */
  ghost function MatchResults(routes: seq<HandlerInfo>, path: string): (results: seq<bool>)
    ensures |results| == |routes|
    ensures forall j :: 0 <= j < |routes| ==> results[j] == Matches(routes[j].pattern, path)
  {
    seq(|routes|, j requires 0 <= j < |routes| => Matches(routes[j].pattern, path))
  }

  /** The first index at or after `from` whose result is true: the routes are tried in order. */
  function FirstTrueFrom(results: seq<bool>, from: nat): (r: Option<nat>)
    requires from <= |results|
    decreases |results| - from
    ensures r.None? ==> forall j :: from <= j < |results| ==> !results[j]
    ensures r.Some? ==> from <= r.value < |results| && results[r.value]
    ensures r.Some? ==> forall j :: from <= j < r.value ==> !results[j]
  {
    if from == |results| then None
    else if results[from] then Some(from)
    else FirstTrueFrom(results, from + 1)
  }

  /**
   * The index of the first route, in registration order, whose pattern
   * matches `path`; None exactly when no route matches.
   */
  ghost function FirstMatch(routes: seq<HandlerInfo>, path: string): (r: Option<nat>)
    ensures r.None? ==> forall j :: 0 <= j < |routes| ==> !Matches(routes[j].pattern, path)
    ensures r.Some? ==> r.value < |routes| && Matches(routes[r.value].pattern, path)
    ensures r.Some? ==> forall j :: 0 <= j < r.value ==> !Matches(routes[j].pattern, path)
  {
    FirstTrueFrom(MatchResults(routes, path), 0)
  }

  /**
   * The outcome of routing `request` through the routes of its method
   * (None for an unsupported method): the first matching route's handler,
   * called with the path variables and query filled in, or the 405 page.
   */
  ghost function RouteRequest(routes: Option<seq<HandlerInfo>>, request: HttpRequest): RouteOutcome
  {
    match routes
    case None => Fallback(DefaultErrorPage)
    case Some(rs) =>
      var (path, query) := SplitPathAndQuery(request.path);
      match FirstMatch(rs, path)
      case None => Fallback(DefaultErrorPage)
      case Some(i) =>
        Dispatch(rs[i].handler, request.(pathVariables := Some(PathVars(rs[i].pattern, path)),
                                         query := Some(QueryParams(query))))
  }

  /** Registering one more route changes the first match only for paths no earlier route matched. */
  lemma FirstMatchAppend(routes: seq<HandlerInfo>, info: HandlerInfo, path: string)
    ensures FirstMatch(routes + [info], path) ==
      if FirstMatch(routes, path).Some? then FirstMatch(routes, path)
      else if Matches(info.pattern, path) then Some(|routes|)
      else None
  {
    var results := MatchResults(routes, path);
    assert MatchResults(routes + [info], path) == results + [Matches(info.pattern, path)];
    FirstTrueFromAppend(results, Matches(info.pattern, path), 0);
  }

  /** Appending a result changes the first true index only when there was none. */
  lemma {:induction false} FirstTrueFromAppend(results: seq<bool>, last: bool, from: nat)
    requires from <= |results|
    ensures FirstTrueFrom(results + [last], from) ==
      if FirstTrueFrom(results, from).Some? then FirstTrueFrom(results, from)
      else if last then Some(|results|)
      else None
    decreases |results| - from
  {
    var longer := results + [last];
    if from < |results| {
      assert longer[from] == results[from];
      FirstTrueFromAppend(results, last, from + 1);
    } else {
      assert longer[from] == last;
    }
  }

  /**
   * When route `i` is the first to match the request's path, routing
   * dispatches to its handler with its captures and the query attached.
   */
  lemma FirstMatchingRouteDispatches(routes: seq<HandlerInfo>, request: HttpRequest, i: nat)
    requires i < |routes|
    requires Matches(routes[i].pattern, SplitPathAndQuery(request.path).0)
    requires forall j :: 0 <= j < i ==> !Matches(routes[j].pattern, SplitPathAndQuery(request.path).0)
    ensures var (path, query) := SplitPathAndQuery(request.path);
      RouteRequest(Some(routes), request) ==
        Dispatch(routes[i].handler, request.(pathVariables := Some(PathVars(routes[i].pattern, path)),
                                             query := Some(QueryParams(query))))
  {
    var path := SplitPathAndQuery(request.path).0;
    var r := FirstMatch(routes, path);
    assert r.Some? && r.value == i;
  }

  /** A path that no route matches gets the 405 page, whatever the method. */
  lemma UnmatchedPathGetsErrorPage(routes: Option<seq<HandlerInfo>>, request: HttpRequest)
    requires routes.Some? ==> forall j :: 0 <= j < |routes.value| ==>
      !Matches(routes.value[j].pattern, SplitPathAndQuery(request.path).0)
    ensures RouteRequest(routes, request) == Fallback(DefaultErrorPage)
  {
  }

  /** The 405 page spelled out: the 405 status line, an empty header section, and the HTML body. */
  lemma DefaultErrorPageText()
    ensures DefaultErrorPage ==
      "HTTP/1.1 405 Method Not Allowed\r\n" + "\r\n" + "<html><body><h1>405 METHOD NOT ALLOWED</h1></body></html>"
  {
    Responses.MethodNotAllowedLine();
  }

  /** The 405 page starts with the 405 status line and a blank line. */
  lemma ErrorPageStartsWithStatusHead()
    ensures HasPrefix(DefaultErrorPage, Responses.ResponseMethodNotAllowed + Responses.CRLF)
    ensures HasPrefix(DefaultErrorPage, "HTTP/1.1 405 ")
  {
    PrefixOfConcat(Responses.ResponseMethodNotAllowed + Responses.CRLF,
                   "<html><body><h1>405 METHOD NOT ALLOWED</h1></body></html>");
    var line := Responses.ResponseMethodNotAllowed;
    assert line == "HTTP/1.1 " + "405" + " " + Responses.Reason(Responses.MethodNotAllowed) + Responses.CRLF;
    assert DefaultErrorPage[..13] == line[..13];
  }

  // ---------------------------------------------------------------------
  // The route table

  /** The four per-method route tables, each in registration order. */
  class RouteTable {
    var getHandlers: seq<HandlerInfo>
    var postHandlers: seq<HandlerInfo>
    var putHandlers: seq<HandlerInfo>
    var deleteHandlers: seq<HandlerInfo>

    /** Empty tables. */
    constructor ()
      ensures getHandlers == [] && postHandlers == [] && putHandlers == [] && deleteHandlers == []
    {
      getHandlers, postHandlers, putHandlers, deleteHandlers := [], [], [], [];
    }

    /** The table a request method selects, None for an unsupported method. */
    function Lookup(requestMethod: string): (r: Option<seq<HandlerInfo>>)
      reads this
      ensures r.None? <==> requestMethod !in {Get, Post, Put, Delete}
    {
      if requestMethod == Get then Some(getHandlers)
      else if requestMethod == Post then Some(postHandlers)
      else if requestMethod == Put then Some(putHandlers)
      else if requestMethod == Delete then Some(deleteHandlers)
      else None
    }

    /**
     * Appends a route to the end of its method's table; an unsupported
     * method changes nothing.
     */
    method RegisterHandler(requestMethod: string, pattern: string, handler: HandlerId)
      modifies this
      ensures var info := HandlerInfo(pattern, handler);
        getHandlers == old(getHandlers) + (if requestMethod == Get then [info] else []) &&
        postHandlers == old(postHandlers) + (if requestMethod == Post then [info] else []) &&
        putHandlers == old(putHandlers) + (if requestMethod == Put then [info] else []) &&
        deleteHandlers == old(deleteHandlers) + (if requestMethod == Delete then [info] else [])
      ensures forall m :: old(Lookup(m)).Some? ==>
        Lookup(m).Some? && old(Lookup(m)).value == Lookup(m).value[..|old(Lookup(m)).value|]
    {
      var info := HandlerInfo(pattern, handler);
      if requestMethod == Get {
        getHandlers := getHandlers + [info];
      } else if requestMethod == Post {
        postHandlers := postHandlers + [info];
      } else if requestMethod == Put {
        putHandlers := putHandlers + [info];
      } else if requestMethod == Delete {
        deleteHandlers := deleteHandlers + [info];
      }
    }

    /** Registers the server's routes: the hello route, then the three user routes. */
    method RegisterHandlers()
      modifies this
      ensures getHandlers == old(getHandlers) + [HandlerInfo("/hello", "helloWorldEndpoint"),
        HandlerInfo("/users/{id}", "getUserByIdAsPathVariable"), HandlerInfo("/users", "getUserByIdAsQuery")]
      ensures postHandlers == old(postHandlers) + [HandlerInfo("/users/create", "createUser")]
      ensures putHandlers == old(putHandlers) && deleteHandlers == old(deleteHandlers)
    {
      RegisterHandler(Get, "/hello", "helloWorldEndpoint");
      RegisterHandler(Post, "/users/create", "createUser");
      RegisterHandler(Get, "/users/{id}", "getUserByIdAsPathVariable");
      RegisterHandler(Get, "/users", "getUserByIdAsQuery");
    }

    /**
     * Routes a request: picks its method's table, tries the routes in
     * order and dispatches to the first one whose pattern matches the
     * path, with the captures and the query attached; otherwise the 405
     * page.
     */
    method RouteConnection(request: HttpRequest) returns (outcome: RouteOutcome)
      ensures outcome == RouteRequest(Lookup(request.requestMethod), request)
    {
      var handlers: seq<HandlerInfo>;
      if request.requestMethod == Get {
        handlers := getHandlers;
      } else if request.requestMethod == Post {
        handlers := postHandlers;
      } else if request.requestMethod == Put {
        handlers := putHandlers;
      } else if request.requestMethod == Delete {
        handlers := deleteHandlers;
      } else {
        return Fallback(DefaultErrorPage);
      }
      assert Lookup(request.requestMethod) == Some(handlers);
      var (path, query) := SplitPathAndQuery(request.path);
      for i := 0 to |handlers|
        invariant forall j :: 0 <= j < i ==> !Matches(handlers[j].pattern, path)
      {
        var pathVars, matched := MatchAndExtract(handlers[i].pattern, path);
        if matched {
          var queryParams := ParseQueryParams(query);
          FirstMatchingRouteDispatches(handlers, request, i);
          return Dispatch(handlers[i].handler, request.(query := Some(queryParams), pathVariables := Some(pathVars)));
        }
      }
      UnmatchedPathGetsErrorPage(Some(handlers), request);
      return Fallback(DefaultErrorPage);
    }
  }
}
