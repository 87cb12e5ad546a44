/**
 * The request record (models/http_request.go) and the parser that turns the
 * raw text read from a connection into it (app/server.go): a simplified
 * subset of the message format of section 3 of RFC 7230 and of its request
 * line, section 3.1.1.
 */
module Request {
  import opened Wrappers
  import opened Strings
  import Responses

  /**
   * One inbound request. The path still carries its `?query` suffix; the
   * two maps are None (a nil map) until the router fills them.
   */
  datatype HttpRequest = HttpRequest(
    requestMethod: string,
    path: string,
    version: string,
    headers: string,
    body: string,
    pathVariables: Option<map<string, string>>,
    query: Option<map<string, string>>)

  /** The request line does not have three space-separated tokens. */
  datatype ParseError = MalformedRequestLine(requestLine: string)

  const CRLF: string := Responses.CRLF

  /** The empty line that ends the head of a message. */
  const BlankLine: string := CRLF + CRLF

  /**
   * The head and the body of a raw message. The head is everything before
   * the first blank line. The body is the text between the first and the
   * second blank line (the source splits on every blank line and keeps
   * only the second piece), or "" when there is no blank line.
   */
  function SplitMessage(raw: string): (r: (string, string))
    ensures r.0 == Before(raw, BlankLine)
    ensures Cut(raw, BlankLine).None? ==> r.0 == raw && r.1 == ""
    ensures Cut(raw, BlankLine).Some? ==> r.1 == Before(Cut(raw, BlankLine).value.1, BlankLine)
  {
    var parts := Split(raw, BlankLine);
    SplitFirst(raw, BlankLine);
    if |parts| > 1 then
      SplitFirst(Cut(raw, BlankLine).value.1, BlankLine);
      (parts[0], parts[1])
    else
      (parts[0], "")
  }

  /**
   * The request line and the header text of a head: the first line, and
   * the remaining lines joined again with CRLF ("" when there is only one
   * line).
   */
  function SplitHead(head: string): (r: (string, string))
    ensures r.0 == Before(head, CRLF)
    ensures !Contains(head, CRLF) ==> r.0 == head && r.1 == ""
    ensures Contains(head, CRLF) ==> r.0 + CRLF + r.1 == head && !Contains(r.0, CRLF)
  {
    var lines := Split(head, CRLF);
    SplitFirst(head, CRLF);
    SplitJoin(head, CRLF);
    (lines[0], Join(lines[1..], CRLF))
  }

  /**
   * Method, path and version: the first three tokens of the request line
   * split on single spaces; further tokens are ignored. A line with fewer
   * than two spaces has fewer than three tokens and is malformed (the
   * source indexes the third token without checking).
   */
  function ExtractHttpStatus(line: string): (r: Result<(string, string, string), ParseError>)
    ensures r.Failure? <==> multiset(line)[' '] < 2
    ensures r.Failure? ==> r.error == MalformedRequestLine(line)
    ensures r.Success? ==>
      var (requestMethod, path, version) := r.value;
      var prefix := requestMethod + " " + path + " " + version;
      ' ' !in requestMethod && ' ' !in path && ' ' !in version &&
      HasPrefix(line, prefix) && (|prefix| == |line| || line[|prefix|] == ' ')
  {
    var tokens := Split(line, " ");
    SplitCount(line, ' ');
    if |tokens| < 3 then
      Failure(MalformedRequestLine(line))
    else
      TokensJoined(line, tokens);
      Success((tokens[0], tokens[1], tokens[2]))
  }

  /**
   * extractHttpStatus as written: it reads the third token without checking
   * that there is one, so it is defined only on lines with at least three
   * tokens, and there it agrees with ExtractHttpStatus.
   */
  function ExtractHttpStatusAsWritten(line: string): (r: (string, string, string))
    requires |Split(line, " ")| >= 3
    ensures ExtractHttpStatus(line) == Success(r)
  {
    var tokens := Split(line, " ");
    (tokens[0], tokens[1], tokens[2])
  }

  /** The request line `GET /` has two tokens, so the as-written version indexes past the end. */
  lemma TwoTokenLineOutOfRange()
    ensures |Split("GET /", " ")| == 2
    ensures ExtractHttpStatus("GET /") == Failure(MalformedRequestLine("GET /"))
  {
    assert " " == [' '];
    assert Join(["GET", "/"], " ") == "GET /";
    SplitUnique("GET /", ' ', ["GET", "/"]);
  }

  /** The tokens of a split request line are space-free and lie at its start, in order. */
  lemma TokensJoined(line: string, tokens: seq<string>)
    requires tokens == Split(line, " ") && |tokens| >= 3
    ensures var prefix := tokens[0] + " " + tokens[1] + " " + tokens[2];
      ' ' !in tokens[0] && ' ' !in tokens[1] && ' ' !in tokens[2] &&
      HasPrefix(line, prefix) && (|prefix| == |line| || line[|prefix|] == ' ')
  {
    assert " " == [' '];
    SplitJoin(line, " ");
    SplitPartsFree(line, " ");
    ContainsChar(tokens[0], ' ');
    ContainsChar(tokens[1], ' ');
    ContainsChar(tokens[2], ' ');
    JoinThree(tokens, " ");
    var rest := if |tokens| == 3 then "" else " " + Join(tokens[3..], " ");
    PrefixOfConcat(tokens[0] + " " + tokens[1] + " " + tokens[2], rest);
  }

  /** A join of three or more parts, with the first three written out. */
  lemma JoinThree(tokens: seq<string>, sep: string)
    requires |tokens| >= 3
    ensures Join(tokens, sep) == tokens[0] + sep + tokens[1] + sep + tokens[2] +
      (if |tokens| == 3 then "" else sep + Join(tokens[3..], sep))
  {
    var t0, t1, t2 := tokens[0], tokens[1], tokens[2];
    var rest := if |tokens| == 3 then "" else sep + Join(tokens[3..], sep);
    var third := Join(tokens[2..], sep);
    if |tokens| == 3 {
      assert tokens[2..] == [t2];
    } else {
      assert tokens[2..][1..] == tokens[3..];
    }
    assert third == t2 + rest;
    var second := Join(tokens[1..], sep);
    assert tokens[1..][1..] == tokens[2..];
    assert second == t1 + sep + third;
    assert Join(tokens, sep) == t0 + sep + second;
    assert t0 + sep + (t1 + sep + (t2 + rest)) == t0 + sep + t1 + sep + t2 + rest;
  }

  /**
   * The whole parser: split off the body, split off the header text, split
   * the request line. The maps are left unset.
   */
  function ExtractParts(raw: string): (r: Result<HttpRequest, ParseError>)
    ensures r.Failure? <==> multiset(Before(raw, CRLF))[' '] < 2
    ensures r.Success? ==>
      var req := r.value;
      ExtractHttpStatus(Before(raw, CRLF)) == Success((req.requestMethod, req.path, req.version)) &&
      req.headers == SplitHead(SplitMessage(raw).0).1 &&
      req.body == SplitMessage(raw).1 &&
      req.pathVariables.None? && req.query.None?
  {
    var (head, body) := SplitMessage(raw);
    var (requestLine, headers) := SplitHead(head);
    RequestLineIsFirstLine(raw);
    match ExtractHttpStatus(requestLine)
    case Failure(e) => Failure(e)
    case Success((requestMethod, path, version)) =>
      Success(HttpRequest(requestMethod, path, version, headers, body, None, None))
  }

  /** The request line is the text before the first CRLF of the whole message. */
  lemma RequestLineIsFirstLine(raw: string)
    ensures Before(Before(raw, BlankLine), CRLF) == Before(raw, CRLF)
  {
    var head := Before(raw, BlankLine);
    var line := Before(head, CRLF);
    if OccursAt(head, CRLF, |line|) {
      FirstLineEndsInsideHead(raw, head, line);
    } else {
      HeadIsOneLine(raw, head);
    }
  }

  /** When the head has a CRLF, the first one in the head is the first one in the message. */
  lemma FirstLineEndsInsideHead(raw: string, head: string, line: string)
    requires HasPrefix(raw, head) && line == Before(head, CRLF) && OccursAt(head, CRLF, |line|)
    ensures Before(raw, CRLF) == line
  {
    assert head == raw[..|head|];
    OccursInPrefix(raw, |head|, CRLF, |line|);
    forall k | 0 <= k < |line| ensures !OccursAt(raw, CRLF, k) {
      if OccursAt(raw, CRLF, k) {
        OccursInsidePrefix(raw, |head|, CRLF, k);
      }
    }
    BeforeAt(raw, CRLF, |line|);
    assert head[..|line|] == line;
  }

  /**
   * When the head has no CRLF, it is the first line of the message: either
   * it is the whole message, or the blank line after it starts with the
   * first CRLF.
   */
  lemma HeadIsOneLine(raw: string, head: string)
    requires head == Before(raw, BlankLine) && !OccursAt(head, CRLF, |Before(head, CRLF)|)
    ensures Before(head, CRLF) == head && Before(raw, CRLF) == head
  {
    assert Before(head, CRLF) == head;
    assert head == raw[..|head|];
    if head != raw {
      BlankLineStartsWithCrlf(raw, |head|);
    }
    NoCrlfBefore(raw, |head|);
    BeforeAt(raw, CRLF, |head|);
  }

  /** A blank line at `n` is a CRLF at `n`, whose first character is CR. */
  lemma BlankLineStartsWithCrlf(raw: string, n: nat)
    requires OccursAt(raw, BlankLine, n)
    ensures OccursAt(raw, CRLF, n) && raw[n] == '\r'
  {
    assert raw[n..n + 2] == raw[n..n + 4][..2];
    assert raw[n] == raw[n..n + 4][0];
  }

  /**
   * No CRLF starts before `n` when the first `n` characters hold none and
   * the character at `n`, if any, is CR (so no CRLF straddles `n`).
   */
  lemma NoCrlfBefore(raw: string, n: nat)
    requires n <= |raw| && (n == |raw| || raw[n] == '\r')
    requires forall k :: OccursAt(raw[..n], CRLF, k) ==> n <= k
    ensures forall k :: 0 <= k < n ==> !OccursAt(raw, CRLF, k)
  {
    forall k | 0 <= k < n ensures !OccursAt(raw, CRLF, k) {
      if k + 2 <= n {
        if OccursAt(raw, CRLF, k) {
          OccursInsidePrefix(raw, n, CRLF, k);
        }
      } else if n < |raw| {
        assert raw[k..k + 2][1] == raw[n] == '\r';
      }
    }
  }

  /** Three space-free tokens joined by single spaces split back into exactly those tokens. */
  lemma RequestLineTokens(requestMethod: string, path: string, version: string)
    requires ' ' !in requestMethod && ' ' !in path && ' ' !in version
    ensures ExtractHttpStatus(requestMethod + " " + path + " " + version) == Success((requestMethod, path, version))
  {
    var line := requestMethod + " " + path + " " + version;
    var tokens := [requestMethod, path, version];
    assert tokens[1..] == [path, version] && tokens[1..][1..] == [version];
    assert Join(tokens[1..], " ") == path + " " + version;
    assert Join(tokens, " ") == line;
    assert " " == [' '];
    SplitUnique(line, ' ', [requestMethod, path, version]);
  }

  /**
   * A message whose first line is a well-formed request line parses to
   * that line's method, path and version, whatever follows the line.
   */
  lemma WellFormedRequestLineParses(requestMethod: string, path: string, version: string, rest: string)
    requires ' ' !in requestMethod && ' ' !in path && ' ' !in version
    requires '\r' !in requestMethod && '\r' !in path && '\r' !in version
    ensures var r := ExtractParts(requestMethod + " " + path + " " + version + CRLF + rest);
      r.Success? && r.value.requestMethod == requestMethod && r.value.path == path && r.value.version == version
  {
    var line := requestMethod + " " + path + " " + version;
    var raw := line + CRLF + rest;
    assert raw == requestMethod + " " + path + " " + version + CRLF + rest;
    assert OccursAt(raw, CRLF, |line|) by {
      assert raw[|line|..|line| + 2] == CRLF;
    }
    forall k | 0 <= k < |line| ensures !OccursAt(raw, CRLF, k) {
      assert raw[k] == line[k];
      assert line[k] != '\r';
      if k + 2 <= |raw| {
        assert raw[k..k + 2][0] == raw[k];
      }
    }
    BeforeAt(raw, CRLF, |line|);
    assert raw[..|line|] == line;
    RequestLineTokens(requestMethod, path, version);
  }
}
