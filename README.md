# http-server-go: request parsing, routing and response catalog in Dafny

This project models the text pipeline of a minimal HTTP/1.1 server written in Go:

- **Request parser** (`app/server.go`). It turns the raw text of a request into a request record:
  - method, path and version from the request line;
  - the header lines as opaque text;
  - the body;
  - two maps, path variables and query, that the router fills in later.
- **Router** (`handlers/handlers.go`). It keeps four per-method route tables in registration order. It splits the request target at the first `?` and matches the path segment by segment against each pattern. A `{name}` segment captures the path segment at its position. The query string is parsed into a map. The request goes to the first matching route's handler, or gets the fixed 405 page.
- **Response catalog** (`internal/network/responses.go`). These are the fixed status lines, in the form of section 3.1.2 of RFC 7230.
- **Test-report helpers** (`internal/util/testing/util.go`). These are the strings the repository's tests print on failure.

## Modules

Files and modules:

- `wrappers.dfy` (`Wrappers`): `Option` and `Result`.
- `strings.dfy` (`Strings`): the parts of Go's `strings` package the server uses. `strings.SplitN(s, sep, 2)` becomes `Cut`, and Split, Join, LastIndex, HasPrefix and HasSuffix keep their roles. Cut's contract pins it down, and Split comes with lemmas that pin it down: a split joins back to its input, no part contains the separator, and for a one-character separator those two facts determine the split.
- `maps.dfy` (`Maps`): maps written entry by entry, where a later entry for a key overwrites an earlier one. This is the shape of both the path-variable map and the query map.
- `responses.dfy` (`Responses`): the catalog. Each constant is built as `"HTTP/1.1 " + code + " " + reason + CRLF` from a table of codes and a table of reason phrases. Both tables hold the source's values.
- `request.dfy` (`Request`): the request record and the parser.
- `router.dfy` (`Router`): matching, query parsing, first-match dispatch, and the route table as a class with the four tables as fields.
- `router_scenarios.dfy` (`RouterScenarios`): the router on the server's own startup table and on small concrete inputs.
- `test_reports.dfy` (`TestReports`): the test-report strings.

How the source is represented:

- A handler is identified by the name of its Go function.
- Routing returns `Dispatch(handler, request)` or `Fallback(page)` instead of writing to a connection. In a dispatch, the request carries the path variables and the query the handler would receive.
- A nil Go map is `None`; a map that was made is `Some(m)`.

Two behaviours of the code are kept exactly as written:

- **The body.** `extractParts` uses `strings.Split`, not `SplitN`, on `"\r\n\r\n"` and keeps the second piece (app/server.go:58-63). So the body is only the text between the first and the second blank line, and anything after a second blank line is dropped (`Request.SplitMessage`).
- **Unmatched paths.** A path that no route matches under a supported method gets the same 405 page as an unsupported method (handlers/handlers.go:49-52, 66).

The request record `Request.HttpRequest` has the seven fields of `HttpRequest` in models/http_request.go:3-11. `Method` is named `requestMethod` in the model, and the two maps are `Option` values so that a map still unset (nil) is `None`.

## Model

| member | source | states |
|---|---|---|
| Strings.Cut | handlers/handlers.go:91 | `SplitN(s, sep, 2)`: None exactly when `sep` does not occur; otherwise before + sep + after == s, split at the first occurrence, with `sep` absent from the text before |
| Strings.Before | app/server.go:58-59 | the first piece of a split: a prefix of the input that ends at the first occurrence of the separator, or the whole input |
| Strings.Split | handlers/handlers.go:70-71 | `strings.Split`: at least one part, and one part exactly when the separator does not occur |
| Strings.Join | app/server.go:68 | `strings.Join`: the parts with the separator written between consecutive parts, none before the first or after the last |
| Strings.SplitJoin | app/server.go:66-68 | joining the parts of a split with its separator gives back the input |
| Strings.SplitPartsFree | app/server.go:77 | no part of a split contains the separator |
| Strings.SplitUnique | app/server.go:77 | for a one-character separator, any separator-free parts that join back to s are Split(s) |
| Strings.SplitCount | app/server.go:77-78 | splitting on a character gives one more part than there are occurrences of that character |
| Strings.SplitFirst | app/server.go:58-59 | the first part of a split is the text before the first separator |
| Strings.LastIndexOf | internal/util/testing/util.go:104 | `strings.LastIndex` for one character: -1 exactly when absent; otherwise an occurrence with none after it |
| Strings.HasPrefix | handlers/handlers.go:79 | `strings.HasPrefix`: the text is at least as long as the prefix and starts with it |
| Strings.HasSuffix | internal/util/testing/util.go:111 | `strings.HasSuffix`: the text is at least as long as the suffix and ends with it |
| Maps.FromEntriesKeys | handlers/handlers.go:99-106 | a key is in the written map exactly when some entry has it |
| Maps.FromEntriesLastWins | handlers/handlers.go:104 | a key's value comes from its last entry: later writes overwrite earlier ones |
| Maps.FromEntriesSnoc | handlers/handlers.go:104 | writing one more entry is one more map update |
| Responses.Code | internal/network/responses.go:3-15 | every status code is three decimal digits |
| Responses.Reason | internal/network/responses.go:3-15 | the reason phrase of each catalog line, as written after its code |
| Responses.Response | internal/network/responses.go:3-15 | a catalog line: `"HTTP/1.1 "`, the code, a space, the reason phrase and CRLF; each catalog constant is the line of its status |
| Responses.CodesDistinct | internal/network/responses.go:3-15 | the 13 status codes are pairwise distinct |
| Responses.ReasonLineFree | internal/network/responses.go:3-15 | no reason phrase contains CR or LF |
| Responses.StatusLineSingleBreak | internal/network/responses.go:3-15 | a status line whose reason has no CR/LF ends in CRLF and has no other CR or LF |
| Responses.ResponseSingleBreak | internal/network/responses.go:3-16 | every catalog line contains exactly one CR/LF pair, at its end |
| Responses.ResponseThenCrlfEndsHead | internal/network/responses.go:3-16 | any catalog line followed by CRLF ends in `"\r\n\r\n"` |
| Responses.OkLine | internal/network/responses.go:3 | `RESPONSE_OK` is exactly `"HTTP/1.1 200 OK\r\n"` |
| Responses.CreatedLine | internal/network/responses.go:4 | `RESPONSE_CREATED` is exactly `"HTTP/1.1 201 Created\r\n"` |
| Responses.NoContentLine | internal/network/responses.go:5 | `RESPONSE_NO_CONTENT` is exactly `"HTTP/1.1 204 No Content\r\n"` |
| Responses.MovedPermanentlyLine | internal/network/responses.go:6 | `RESPONSE_MOVED_PERMANENTLY` is exactly `"HTTP/1.1 301 Moved Permanently\r\n"` |
| Responses.FoundLine | internal/network/responses.go:7 | `RESPONSE_FOUND` is exactly `"HTTP/1.1 302 Found\r\n"` |
| Responses.BadRequestLine | internal/network/responses.go:8 | `RESPONSE_BAD_REQUEST` is exactly `"HTTP/1.1 400 Bad Request\r\n"` |
| Responses.UnauthorizedLine | internal/network/responses.go:9 | `RESPONSE_UNAUTHORIZED` is exactly `"HTTP/1.1 401 Unauthorized\r\n"` |
| Responses.ForbiddenLine | internal/network/responses.go:10 | `RESPONSE_FORBIDDEN` is exactly `"HTTP/1.1 403 Forbidden\r\n"` |
| Responses.NotFoundLine | internal/network/responses.go:11 | `RESPONSE_NOT_FOUND` is exactly `"HTTP/1.1 404 Not Found\r\n"` |
| Responses.MethodNotAllowedLine | internal/network/responses.go:12 | `RESPONSE_METHOD_NOT_ALLOWED` is exactly `"HTTP/1.1 405 Method Not Allowed\r\n"` |
| Responses.InternalServerErrorLine | internal/network/responses.go:13 | `RESPONSE_INTERNAL_SERVER_ERROR` is exactly `"HTTP/1.1 500 Internal Server Error\r\n"` |
| Responses.BadGatewayLine | internal/network/responses.go:14 | `RESPONSE_BAD_GATEWAY` is exactly `"HTTP/1.1 502 Bad Gateway\r\n"` |
| Responses.ServiceUnavailableLine | internal/network/responses.go:15 | `RESPONSE_SERVICE_UNAVAILABLE` is exactly `"HTTP/1.1 503 Service Unavailable\r\n"` |
| Request.SplitMessage | app/server.go:58-63 | head = text before the first blank line; with no blank line the head is the whole input and the body is ""; otherwise the body is the text between the first and second blank lines |
| Request.SplitHead | app/server.go:66-68 | request line = text before the first CRLF; headers are "" without a CRLF; otherwise request line + CRLF + headers == head, with no CRLF in the request line |
| Request.ExtractHttpStatus | app/server.go:76-79 | fails with MalformedRequestLine exactly when the line has fewer than two spaces; otherwise method, path and version are space-free and lie at the start of the line, separated by single spaces and followed by the end of the line or a space |
| Request.ExtractHttpStatusAsWritten | app/server.go:76-79 | the unchecked indexing: defined only for three or more tokens, and there it agrees with ExtractHttpStatus |
| Request.TwoTokenLineOutOfRange | app/server.go:77-78 | `GET /` splits into two tokens, so the unchecked third index is out of range; the checked parser reports MalformedRequestLine |
| Request.ExtractParts | app/server.go:56-73 | fails exactly when the message's first line is malformed; otherwise the method, path and version come from that line, the headers and body from SplitHead and SplitMessage, and both maps are unset |
| Request.RequestLineIsFirstLine | app/server.go:58-67 | the first line of the head is the first line of the whole message |
| Request.RequestLineTokens | app/server.go:76-79 | three space-free tokens joined by single spaces parse back to exactly those tokens |
| Request.WellFormedRequestLineParses | app/server.go:56-79 | a message whose first line is `method SP path SP version CRLF` parses to those three values, whatever follows |
| Router.SplitPathAndQuery | handlers/handlers.go:90-96 | with no `?` the target is returned unchanged with query ""; otherwise the path has no `?` and path + "?" + query == target |
| Router.QueryParams | handlers/handlers.go:98-108 | the query map: each `&`-pair holding a `=` writes its key and value, in order |
| Router.ParseQueryParams | handlers/handlers.go:98-108 | the result is QueryParams(query): every `&`-pair holding a `=`, written in order |
| Router.ParsePairs | handlers/handlers.go:101-106 | the pair loop: the map is the entries of the pairs written in order, an entry only for a pair with a `=` |
| Router.QueryKeys | handlers/handlers.go:100-105 | a key is present exactly when some pair holds a `=` and has that key before its first `=`; keys contain no `=` |
| Router.QueryLastPairWins | handlers/handlers.go:101-106 | a key's value is the text after the first `=` of the last pair with that key |
| Router.EmptyQueryHasNoParams | handlers/handlers.go:98-108 | an empty query gives an empty map |
| Router.CaptureIsBraced | handlers/handlers.go:79 | a segment is a capture exactly when it starts with `{` and ends with `}` (so it has at least two characters) |
| Router.CaptureName | handlers/handlers.go:80 | the capture name between the braces: `"{" + name + "}"` is the segment |
| Router.MatchAndExtract | handlers/handlers.go:69-88 | matched exactly when the `/`-segments agree; never matched when the segment counts differ; on a match the map is PathVars, otherwise empty |
| Router.MatchSegments | handlers/handlers.go:73-87 | the segment loop: matched exactly when the counts agree and every non-capture segment equals the path segment; then the map holds the captures written in order |
| Router.CaptureBindsSegment | handlers/handlers.go:79-81 | on a match, a capture binds its name to the path segment at its index unless a later capture has the same name |
| Router.PathVarNames | handlers/handlers.go:79-81 | on a match, the path variables are named exactly by the pattern's captures |
| Router.LiteralPatternMatchesOnlyItself | handlers/handlers.go:82-87 | a pattern with no capture segment matches exactly the path equal to it |
| Router.BraceFreePatternMatchesOnlyItself | handlers/handlers.go:78-87 | a pattern without `{` matches a path exactly when they are equal |
| Router.FirstTrueFrom | handlers/handlers.go:56-64 | the routes are tried in order: the first true result at or after an index; None exactly when there is none |
| Router.FirstMatch | handlers/handlers.go:56-64 | the first route whose pattern matches: None exactly when no route matches, otherwise a matching route with no matching route before it |
| Router.RouteRequest | handlers/handlers.go:37-67 | routing: an unsupported method or no matching route gives the 405 page; otherwise the first matching route's handler gets the request with its path variables and query map set |
| Router.FirstMatchAppend | handlers/handlers.go:110-125 | appending a route changes the first match only for paths no earlier route matched |
| Router.FirstTrueFromAppend | handlers/handlers.go:110-125 | appending a result changes the first true index only when no earlier result was true |
| Router.FirstMatchingRouteDispatches | handlers/handlers.go:55-63 | when route i is the first to match, routing calls its handler with its captures and the query attached |
| Router.UnmatchedPathGetsErrorPage | handlers/handlers.go:49-52 | an unsupported method, or a path no route matches, gets the 405 page |
| Router.DefaultErrorPageText | handlers/handlers.go:33 | the 405 page is the 405 status line, CRLF, then `<html><body><h1>405 METHOD NOT ALLOWED</h1></body></html>` |
| Router.ErrorPageStartsWithStatusHead | handlers/handlers.go:32-35 | the 405 page begins with the 405 status line followed by CRLF, so it begins with `HTTP/1.1 405 ` |
| Router.RouteTable.constructor | handlers/handlers.go:18-23 | the four tables start empty |
| Router.RouteTable.Lookup | handlers/handlers.go:38-53 | a method selects its table; None exactly for methods other than GET, POST, PUT and DELETE |
| Router.RouteTable.RegisterHandler | handlers/handlers.go:110-125 | appends the route to the end of its method's table only; other tables unchanged; an unsupported method changes nothing; earlier entries kept |
| Router.RouteTable.RegisterHandlers | handlers/handlers.go:127-130 | registers `/hello`, then `/users/create` (POST), `/users/{id}` and `/users` (GET), in that order |
| Router.RouteTable.RouteConnection | handlers/handlers.go:37-67 | the outcome is RouteRequest on the method's table: the first matching route with captures and query, or the 405 page |
| RouterScenarios.StartupTable | handlers/handlers.go:127-130 | fresh tables after registration hold the three GET routes and the one POST route |
| RouterScenarios.ExtraSegmentRejected | handlers/handlers.go:73-75 | `/users/5/extra` does not match `/users/{id}` |
| RouterScenarios.LiteralSegmentMismatchRejected | handlers/handlers.go:82-84 | `/users` does not match `/hello` |
| RouterScenarios.UserPatternBindsId | handlers/handlers.go:77-81 | `/users/7` matches `/users/{id}` with `id` = `7` |
| RouterScenarios.UsersMatchesItself | handlers/handlers.go:69-88 | `/users` matches itself and binds nothing |
| RouterScenarios.PairWithoutEqualsSkipped | handlers/handlers.go:98-108 | `id=5&bad&key=` gives `{id: 5, key: ""}` |
| RouterScenarios.SingleParamQuery | handlers/handlers.go:98-108 | `id=5` gives `{id: 5}` |
| RouterScenarios.UserByPathVariableDispatch | handlers/handlers.go:55-63 | GET `/users/7` on the startup table reaches getUserByIdAsPathVariable with `id` = `7` |
| RouterScenarios.UserByQueryDispatch | handlers/handlers.go:55-63 | GET `/users?id=5` passes over `/hello` and `/users/{id}` and reaches getUserByIdAsQuery with query `id` = `5` |
| RouterScenarios.EarlierCaptureRouteWins | handlers/handlers.go:56-64 | with `/a/{x}` registered before `/a/b`, the path `/a/b` goes to the first route with `x` = `b` |
| TestReports.JoinLength | internal/util/testing/util.go:84-90 | a join has the parts' length plus one separator per gap: no separator after the last part |
| TestReports.WrittenStep | internal/util/testing/util.go:84-90 | writing one argument, then ", " unless it is the last, extends the text written so far |
| TestReports.ParseArgs | internal/util/testing/util.go:80-98 | the result is "(" + Join(args, ", ") + ")": it starts with "(", ends with ")", and is "()" for no arguments |
| TestReports.ParseDescription | internal/util/testing/util.go:72-74 | the description is the argument list |
| TestReports.AfterLastSlash | internal/util/testing/util.go:103-108 | the result contains no `/`; the name is unchanged without `/`; otherwise the result is the suffix after the last `/` |
| TestReports.AfterLastSlashIdempotent | internal/util/testing/util.go:103-108 | dropping the package path a second time changes nothing |
| TestReports.TrimFmSuffix | internal/util/testing/util.go:110-114 | with a trailing `-fm`, result + "-fm" == name; otherwise the name is unchanged |
| TestReports.TrimFmSuffixUndoesOne | internal/util/testing/util.go:110-114 | exactly one `-fm` is removed: trimming name + "-fm" gives name |
| TestReports.FunctionName | internal/util/testing/util.go:100-120 | the path filter runs, then the `-fm` filter, and the result has no `/` |
| TestReports.ParseError | internal/util/testing/util.go:76-78 | the message is short name + argument list + " = " + got + ", want: " + want |
| TestReports.ValidateError | internal/util/testing/util.go:66-70 | a report exactly when there is an error and its message differs from the expected one; a report's text is fixed by the format string |

## Findings

| source | as written | input that shows it | evidently intended | confidence | as-written member | corrected member |
|---|---|---|---|---|---|---|
| app/server.go:76-79 | `extractHttpStatus` returns `slice[0], slice[1], slice[2]` without checking how many tokens there are | the request line `GET /`, which splits into two tokens. The index panic happens in the connection goroutine, where nothing recovers it, so it stops the server | reject a request line with fewer than three tokens | high (not executed) | Request.ExtractHttpStatusAsWritten, Request.TwoTokenLineOutOfRange | Request.ExtractHttpStatus |

## Left out

- Socket I/O is not modelled. This covers reading with a deadline and writing in `internal/network/network.go`, and the accept loop, the goroutine per connection and `handleConnection` in `app/server.go`. Routing returns its outcome instead of writing it.
- The console messages printed for an unsupported method (`fmt.Println`) are left out. They are output only.
- The endpoint handlers (hello and user handlers) appear only as handler names. Their JSON, integer parsing, database calls and writes are outside this model.
- The SQL layer and the repositories are left out.
- The reflection-based test helpers (`GetTestHandler`, `HandleTests`, `AssertGotAndWantType`) and `ValidateResult` are left out. `ValidateResult` compares arbitrary Go values with `!=` and reports through `testing.T`.
- TestReports.FunctionName: the function name is a parameter. The lookup of a function's name at run time (`runtime.FuncForPC`) is not modelled.
- TestReports.ValidateError: returns the report text instead of calling `t.Errorf`.
- Request.ExtractParts: a malformed request line gives a `MalformedRequestLine` failure, where the source panics. See Findings.
- Router.MatchAndExtract: on failure it returns an empty map where the source returns a nil map. No caller distinguishes the two.
- Go's `strings.Split` with an empty separator is not modelled. The server never splits on an empty separator.
