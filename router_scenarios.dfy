/**
 * The router on the server's own route table and on small concrete inputs:
 * the routes registered at startup, a query string with a pair lacking
 * `=`, a capture route registered before an overlapping literal route, and
 * segment-count and literal mismatches.
 */
module RouterScenarios {
  import opened Wrappers
  import opened Strings
  import opened Maps
  import opened Request
  import opened Router

  /** The GET table after startup registration, in registration order. */
  const StartupGetRoutes: seq<HandlerInfo> := [HandlerInfo("/hello", "helloWorldEndpoint"),
    HandlerInfo("/users/{id}", "getUserByIdAsPathVariable"), HandlerInfo("/users", "getUserByIdAsQuery")]

  /** Registering the server's routes on fresh tables gives the startup GET table and one POST route. */
  method StartupTable() returns (table: RouteTable)
    ensures fresh(table)
    ensures table.getHandlers == StartupGetRoutes
    ensures table.postHandlers == [HandlerInfo("/users/create", "createUser")]
    ensures table.putHandlers == [] && table.deleteHandlers == []
  {
    table := new RouteTable();
    table.RegisterHandlers();
  }

  // ---------------------------------------------------------------------
  // Segments of the texts used below

  lemma SegmentsOfHello()
    ensures Split("/hello", "/") == ["", "hello"]
  {
    assert "/" == ['/'];
    assert Join(["", "hello"], "/") == "/hello";
    SplitUnique("/hello", '/', ["", "hello"]);
  }

  lemma SegmentsOfUsers()
    ensures Split("/users", "/") == ["", "users"]
  {
    assert "/" == ['/'];
    assert Join(["", "users"], "/") == "/users";
    SplitUnique("/users", '/', ["", "users"]);
  }

  lemma SegmentsOfUserPattern()
    ensures Split("/users/{id}", "/") == ["", "users", "{id}"]
  {
    assert "/" == ['/'];
    assert Join(["", "users", "{id}"], "/") == "/users/{id}";
    SplitUnique("/users/{id}", '/', ["", "users", "{id}"]);
  }

  lemma SegmentsOfUser7()
    ensures Split("/users/7", "/") == ["", "users", "7"]
  {
    assert "/" == ['/'];
    assert Join(["", "users", "7"], "/") == "/users/7";
    SplitUnique("/users/7", '/', ["", "users", "7"]);
  }

  lemma SegmentsOfUser5Extra()
    ensures Split("/users/5/extra", "/") == ["", "users", "5", "extra"]
  {
    assert "/" == ['/'];
    assert Join(["", "users", "5", "extra"], "/") == "/users/5/extra";
    SplitUnique("/users/5/extra", '/', ["", "users", "5", "extra"]);
  }

  // ---------------------------------------------------------------------
  // Matching

  /** A path with more segments than the pattern never matches it, captures or not. */
  lemma ExtraSegmentRejected()
    ensures !Matches("/users/{id}", "/users/5/extra")
  {
    SegmentsOfUserPattern();
    SegmentsOfUser5Extra();
  }

  /** One differing literal segment rejects. */
  lemma LiteralSegmentMismatchRejected()
    ensures !Matches("/hello", "/users")
  {
    SegmentsOfHello();
    SegmentsOfUsers();
    assert !IsCapture("hello");
    assert ["", "hello"][1] != ["", "users"][1];
  }

  lemma UserSegmentsAgree()
    ensures SegmentsAgree(["", "users", "{id}"], ["", "users", "7"])
  {
    assert !IsCapture("") && !IsCapture("users");
  }

  lemma UserSegmentsBind()
    ensures FromEntries(CaptureEntries(["", "users", "{id}"], ["", "users", "7"])) == map["id" := "7"]
  {
    assert !IsCapture("") && !IsCapture("users") && IsCapture("{id}");
    assert CaptureName("{id}") == "id";
    var entries := CaptureEntries(["", "users", "{id}"], ["", "users", "7"]);
    assert entries == [None, None, Some(("id", "7"))];
    FromEntriesSnoc([None, None], Some(("id", "7")));
    FromEntriesSnoc<string, string>([None], None);
    FromEntriesSnoc<string, string>([], None);
  }

  /** `/users/7` matches `/users/{id}` and binds `id` to `7`. */
  lemma UserPatternBindsId()
    ensures Matches("/users/{id}", "/users/7")
    ensures PathVars("/users/{id}", "/users/7") == map["id" := "7"]
  {
    SegmentsOfUserPattern();
    SegmentsOfUser7();
    UserSegmentsAgree();
    UserSegmentsBind();
  }

  /** A literal pattern matches itself and binds nothing. */
  lemma UsersMatchesItself()
    ensures Matches("/users", "/users")
    ensures PathVars("/users", "/users") == map[]
  {
    SegmentsOfUsers();
    assert !IsCapture("") && !IsCapture("users");
    var entries := CaptureEntries(["", "users"], ["", "users"]);
    assert entries == [None, None];
    FromEntriesSnoc<string, string>([None], None);
    FromEntriesSnoc<string, string>([], None);
  }

  // ---------------------------------------------------------------------
  // Query strings

  lemma PairsOfQuery()
    ensures Split("id=5&bad&key=", "&") == ["id=5", "bad", "key="]
  {
    assert "&" == ['&'];
    assert Join(["id=5", "bad", "key="], "&") == "id=5&bad&key=";
    SplitUnique("id=5&bad&key=", '&', ["id=5", "bad", "key="]);
  }

  lemma PairsOfIdQuery()
    ensures Split("id=5", "&") == ["id=5"]
  {
    assert "&" == ['&'];
    SplitUnique("id=5", '&', ["id=5"]);
  }

  lemma CutIdPair()
    ensures Cut("id=5", "=") == Some(("id", "5"))
  {
    assert "=" == ['='];
    assert "id=5"[..2] == "id";
    CutChar("id=5", '=', 2);
  }

  lemma CutBadPair()
    ensures Cut("bad", "=") == None
  {
    assert "=" == ['='];
    ContainsChar("bad", '=');
  }

  lemma CutKeyPair()
    ensures Cut("key=", "=") == Some(("key", ""))
  {
    assert "=" == ['='];
    assert "key="[..3] == "key";
    CutChar("key=", '=', 3);
  }

  lemma EntriesOfThree(a: string, b: string, c: string)
    ensures QueryEntries([a, b, c]) == [Cut(a, "="), Cut(b, "="), Cut(c, "=")]
  {
    var pairs := [a, b, c];
    var entries := QueryEntries(pairs);
    assert |entries| == 3;
    assert entries == [entries[0], entries[1], entries[2]];
  }

  lemma EntriesOfQuery()
    ensures QueryEntries(["id=5", "bad", "key="]) == [Some(("id", "5")), None, Some(("key", ""))]
  {
    EntriesOfThree("id=5", "bad", "key=");
    CutIdPair();
    CutBadPair();
    CutKeyPair();
  }

  lemma MapOfQuery()
    ensures FromEntries([Some(("id", "5")), None, Some(("key", ""))]) == map["id" := "5", "key" := ""]
  {
    FromEntriesSnoc([Some(("id", "5")), None], Some(("key", "")));
    FromEntriesSnoc([Some(("id", "5"))], None);
    FromEntriesSnoc([], Some(("id", "5")));
  }

  /** A pair without `=` is skipped, and `key=` gives an empty value. */
  lemma PairWithoutEqualsSkipped()
    ensures QueryParams("id=5&bad&key=") == map["id" := "5", "key" := ""]
  {
    PairsOfQuery();
    EntriesOfQuery();
    MapOfQuery();
  }

  lemma SingleParamQuery()
    ensures QueryParams("id=5") == map["id" := "5"]
  {
    PairsOfIdQuery();
    CutIdPair();
    assert QueryEntries(["id=5"]) == [Some(("id", "5"))];
    FromEntriesSnoc([], Some(("id", "5")));
  }

  // ---------------------------------------------------------------------
  // Dispatch on the startup table

  lemma TargetWithoutQuery(target: string)
    requires target == "/users/7" || target == "/a/b"
    ensures SplitPathAndQuery(target) == (target, "")
  {
    assert '?' !in target;
  }

  lemma TargetWithQuery()
    ensures SplitPathAndQuery("/users?id=5") == ("/users", "id=5")
  {
    assert "?" == ['?'];
    assert "/users?id=5"[..6] == "/users";
    CutChar("/users?id=5", '?', 6);
  }

  lemma HelloRejectsUser7()
    ensures !Matches("/hello", "/users/7")
  {
    SegmentsOfHello();
    SegmentsOfUser7();
  }

  lemma UserPatternRejectsUsers()
    ensures !Matches("/users/{id}", "/users")
  {
    SegmentsOfUserPattern();
    SegmentsOfUsers();
  }

  lemma User7MatchesSecondRoute()
    ensures FirstMatch(StartupGetRoutes, "/users/7") == Some(1)
  {
    HelloRejectsUser7();
    UserPatternBindsId();
  }

  /** GET /users/7 reaches the path-variable handler with `id` = `7` and an empty query. */
  lemma UserByPathVariableDispatch(request: HttpRequest)
    requires request.path == "/users/7"
    ensures RouteRequest(Some(StartupGetRoutes), request) ==
      Dispatch("getUserByIdAsPathVariable",
               request.(pathVariables := Some(map["id" := "7"]), query := Some(map[])))
  {
    TargetWithoutQuery(request.path);
    User7MatchesSecondRoute();
    UserPatternBindsId();
    EmptyQueryHasNoParams();
    assert StartupGetRoutes[1] == HandlerInfo("/users/{id}", "getUserByIdAsPathVariable");
  }

  lemma UsersMatchesThirdRoute()
    ensures FirstMatch(StartupGetRoutes, "/users") == Some(2)
  {
    LiteralSegmentMismatchRejected();
    UserPatternRejectsUsers();
    UsersMatchesItself();
  }

  /**
   * GET /users?id=5 skips `/hello` (literal mismatch) and `/users/{id}`
   * (segment count) and reaches the query handler with `id` = `5`.
   */
  lemma UserByQueryDispatch(request: HttpRequest)
    requires request.path == "/users?id=5"
    ensures RouteRequest(Some(StartupGetRoutes), request) ==
      Dispatch("getUserByIdAsQuery",
               request.(pathVariables := Some(map[]), query := Some(map["id" := "5"])))
  {
    TargetWithQuery();
    UsersMatchesThirdRoute();
    UsersMatchesItself();
    SingleParamQuery();
    assert StartupGetRoutes[2] == HandlerInfo("/users", "getUserByIdAsQuery");
  }

  lemma SegmentsOfCapturePattern()
    ensures Split("/a/{x}", "/") == ["", "a", "{x}"]
  {
    assert "/" == ['/'];
    assert Join(["", "a", "{x}"], "/") == "/a/{x}";
    SplitUnique("/a/{x}", '/', ["", "a", "{x}"]);
  }

  lemma SegmentsOfAB()
    ensures Split("/a/b", "/") == ["", "a", "b"]
  {
    assert "/" == ['/'];
    assert Join(["", "a", "b"], "/") == "/a/b";
    SplitUnique("/a/b", '/', ["", "a", "b"]);
  }

  lemma CaptureSegmentsBind()
    ensures SegmentsAgree(["", "a", "{x}"], ["", "a", "b"])
    ensures FromEntries(CaptureEntries(["", "a", "{x}"], ["", "a", "b"])) == map["x" := "b"]
  {
    assert !IsCapture("") && !IsCapture("a") && IsCapture("{x}");
    assert CaptureName("{x}") == "x";
    assert CaptureEntries(["", "a", "{x}"], ["", "a", "b"]) == [None, None, Some(("x", "b"))];
    FromEntriesSnoc([None, None], Some(("x", "b")));
    FromEntriesSnoc<string, string>([None], None);
    FromEntriesSnoc<string, string>([], None);
  }

  lemma CapturePatternBindsB()
    ensures Matches("/a/{x}", "/a/b")
    ensures PathVars("/a/{x}", "/a/b") == map["x" := "b"]
  {
    SegmentsOfCapturePattern();
    SegmentsOfAB();
    CaptureSegmentsBind();
  }

  /**
   * A capture route registered before an overlapping literal route wins:
   * `/a/b` goes to the first route, with `x` = `b`.
   */
  lemma EarlierCaptureRouteWins(request: HttpRequest)
    requires request.path == "/a/b"
    ensures RouteRequest(Some([HandlerInfo("/a/{x}", "first"), HandlerInfo("/a/b", "second")]), request) ==
      Dispatch("first", request.(pathVariables := Some(map["x" := "b"]), query := Some(map[])))
  {
    TargetWithoutQuery(request.path);
    CapturePatternBindsB();
    EmptyQueryHasNoParams();
    FirstMatchingRouteDispatches([HandlerInfo("/a/{x}", "first"), HandlerInfo("/a/b", "second")], request, 0);
  }
}
