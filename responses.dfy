/**
 * The response catalog: fixed status lines, in the status-line form of
 * section 3.1.2 of RFC 7230, each terminated by CRLF.
 */
module Responses {
  import opened Strings

  const CRLF: string := "\r\n"

  /** The statuses the catalog has a line for. */
  datatype Status =
    | Ok | Created | NoContent | MovedPermanently | Found
    | BadRequest | Unauthorized | Forbidden | NotFound | MethodNotAllowed
    | InternalServerError | BadGateway | ServiceUnavailable

  /** The status code each line announces, as written on the line. */
  function Code(status: Status): (code: string)
    ensures IsThreeDigitCode(code)
  {
    match status
    case Ok => "200"
    case Created => "201"
    case NoContent => "204"
    case MovedPermanently => "301"
    case Found => "302"
    case BadRequest => "400"
    case Unauthorized => "401"
    case Forbidden => "403"
    case NotFound => "404"
    case MethodNotAllowed => "405"
    case InternalServerError => "500"
    case BadGateway => "502"
    case ServiceUnavailable => "503"
  }

  /** The reason phrase each line carries. */
  function Reason(status: Status): string
  {
    match status
    case Ok => "OK"
    case Created => "Created"
    case NoContent => "No Content"
    case MovedPermanently => "Moved Permanently"
    case Found => "Found"
    case BadRequest => "Bad Request"
    case Unauthorized => "Unauthorized"
    case Forbidden => "Forbidden"
    case NotFound => "Not Found"
    case MethodNotAllowed => "Method Not Allowed"
    case InternalServerError => "Internal Server Error"
    case BadGateway => "Bad Gateway"
    case ServiceUnavailable => "Service Unavailable"
  }

  /** Three decimal digits. */
  predicate IsThreeDigitCode(code: string) {
    |code| == 3 && forall i :: 0 <= i < 3 ==> '0' <= code[i] <= '9'
  }

  /** "HTTP/1.1 " SP-separated code and reason phrase, then CRLF. */
  function StatusLine(code: string, reason: string): string
  {
    "HTTP/1.1 " + code + " " + reason + CRLF
  }

  /** A text with no CR and no LF in it. */
  predicate LineFree(s: string) {
    '\r' !in s && '\n' !in s
  }

  /** The catalog line for each status. */
  function Response(status: Status): string
  {
    StatusLine(Code(status), Reason(status))
  }

  // The catalog under the names the handlers use.
  const ResponseOk: string := Response(Ok)
  const ResponseCreated: string := Response(Created)
  const ResponseNoContent: string := Response(NoContent)
  const ResponseMovedPermanently: string := Response(MovedPermanently)
  const ResponseFound: string := Response(Found)
  const ResponseBadRequest: string := Response(BadRequest)
  const ResponseUnauthorized: string := Response(Unauthorized)
  const ResponseForbidden: string := Response(Forbidden)
  const ResponseNotFound: string := Response(NotFound)
  const ResponseMethodNotAllowed: string := Response(MethodNotAllowed)
  const ResponseInternalServerError: string := Response(InternalServerError)
  const ResponseBadGateway: string := Response(BadGateway)
  const ResponseServiceUnavailable: string := Response(ServiceUnavailable)

  // The reason phrases checked a few at a time: ReasonLineFree below proves
  // all thirteen through these, because one proof over every phrase at once
  // is too costly for the solver.
  lemma SuccessReasons()
    ensures LineFree(Reason(Ok))
    ensures LineFree(Reason(Created))
    ensures LineFree(Reason(NoContent))
  {
  }

  lemma RedirectReasons()
    ensures LineFree(Reason(MovedPermanently))
    ensures LineFree(Reason(Found))
  {
  }

  lemma ClientErrorReasons()
    ensures LineFree(Reason(BadRequest))
    ensures LineFree(Reason(Unauthorized))
    ensures LineFree(Reason(Forbidden))
  {
  }

  lemma NotFoundReasons()
    ensures LineFree(Reason(NotFound))
    ensures LineFree(Reason(MethodNotAllowed))
  {
  }

  lemma InternalErrorReason()
    ensures LineFree(Reason(InternalServerError))
  {
  }

  lemma GatewayReasons()
    ensures LineFree(Reason(BadGateway))
    ensures LineFree(Reason(ServiceUnavailable))
  {
  }

  /** No reason phrase in the catalog contains a CR or an LF. */
  lemma ReasonLineFree(status: Status)
    ensures LineFree(Reason(status))
  {
    match status
    case Ok | Created | NoContent => SuccessReasons();
    case MovedPermanently | Found => RedirectReasons();
    case BadRequest | Unauthorized | Forbidden => ClientErrorReasons();
    case NotFound | MethodNotAllowed => NotFoundReasons();
    case InternalServerError => InternalErrorReason();
    case BadGateway | ServiceUnavailable => GatewayReasons();
  }

  // Each catalog constant spelled out, one lemma per constant: comparing
  // string literals is costly for the solver, so they are kept apart.

  lemma OkLine()
    ensures ResponseOk == "HTTP/1.1 200 OK\r\n"
  {
  }

  lemma CreatedLine()
    ensures ResponseCreated == "HTTP/1.1 201 Created\r\n"
  {
  }

  lemma NoContentLine()
    ensures ResponseNoContent == "HTTP/1.1 204 No Content\r\n"
  {
  }

  lemma MovedPermanentlyLine()
    ensures ResponseMovedPermanently == "HTTP/1.1 301 Moved Permanently\r\n"
  {
  }

  lemma FoundLine()
    ensures ResponseFound == "HTTP/1.1 302 Found\r\n"
  {
  }

  lemma BadRequestLine()
    ensures ResponseBadRequest == "HTTP/1.1 400 Bad Request\r\n"
  {
  }

  lemma UnauthorizedLine()
    ensures ResponseUnauthorized == "HTTP/1.1 401 Unauthorized\r\n"
  {
  }

  lemma ForbiddenLine()
    ensures ResponseForbidden == "HTTP/1.1 403 Forbidden\r\n"
  {
  }

  lemma NotFoundLine()
    ensures ResponseNotFound == "HTTP/1.1 404 Not Found\r\n"
  {
  }

  lemma MethodNotAllowedLine()
    ensures ResponseMethodNotAllowed == "HTTP/1.1 405 Method Not Allowed\r\n"
  {
  }

  lemma InternalServerErrorLine()
    ensures ResponseInternalServerError == "HTTP/1.1 500 Internal Server Error\r\n"
  {
  }

  lemma BadGatewayLine()
    ensures ResponseBadGateway == "HTTP/1.1 502 Bad Gateway\r\n"
  {
  }

  lemma ServiceUnavailableLine()
    ensures ResponseServiceUnavailable == "HTTP/1.1 503 Service Unavailable\r\n"
  {
  }

  /** No two statuses share a code. */
  lemma CodesDistinct(s: Status, t: Status)
    requires s != t
    ensures Code(s) != Code(t)
  {
  }

  /** A status line whose reason phrase has no CR or LF has its only CR and LF as its final pair. */
  lemma StatusLineSingleBreak(code: string, reason: string)
    requires IsThreeDigitCode(code)
    requires LineFree(reason)
    ensures var line := StatusLine(code, reason);
      HasSuffix(line, CRLF) &&
      forall i :: 0 <= i < |line| - 2 ==> line[i] != '\r' && line[i] != '\n'
  {
    var line := StatusLine(code, reason);
    var front := "HTTP/1.1 " + code + " " + reason;
    assert line == front + CRLF;
    forall i | 0 <= i < |line| - 2 ensures line[i] != '\r' && line[i] != '\n' {
      assert line[i] == front[i];
      if 9 <= i < 12 {
        assert front[i] == code[i - 9];
      } else if 13 <= i {
        assert front[i] == reason[i - 13];
      }
    }
  }

  /** Each catalog constant ends with CRLF and contains no other CR or LF. */
  lemma ResponseSingleBreak(status: Status)
    ensures HasSuffix(Response(status), CRLF)
    ensures forall i :: 0 <= i < |Response(status)| - 2 ==>
      Response(status)[i] != '\r' && Response(status)[i] != '\n'
  {
    ReasonLineFree(status);
    StatusLineSingleBreak(Code(status), Reason(status));
  }

  /** A status line followed by CRLF ends with the blank line that precedes a response body. */
  lemma ResponseThenCrlfEndsHead(status: Status)
    ensures HasSuffix(Response(status) + CRLF, "\r\n\r\n")
  {
    ResponseSingleBreak(status);
    var r := Response(status);
    assert (r + CRLF)[|r| + 2 - 4..] == r[|r| - 2..] + CRLF;
  }
}
