/**
 * `request_resolver` and the per-connection step of the server loop: parse the
 * request, resolve it into a response, turn a failed `assert` into 400 Bad
 * Request, and serialise the response that is sent back.
 */
module Server {
  import opened Outcomes
  import opened Strings
  import opened Messages
  import opened Parsing
  import opened Responses

  /** The response sent when parsing fails an `assert` (line 143). */
  const BadRequest: ResponseData := ResponseData("HTTP/1.1", 400, "Bad Request", None)

  /**
   * `request_resolver(request)`, with what `open("index.html").read()`
   * returns (text mode, newlines translated to `\n`) passed in as `index`:
   * GET is answered with the page, every other method with 405.
   */
  function RequestResolver(request: RequestData, index: string): (r: ResponseData)
    ensures r.version == request.version
    ensures ReasonPhrase(r.statusCode) == Some(r.statusText)
    ensures r.statusCode == 200 <==> request.httpMethod == "GET"
    ensures r.statusCode == 405 <==> request.httpMethod != "GET"
    ensures r.payload == if request.httpMethod == "GET" then Some(index) else None
  {
    match request.httpMethod
    case "GET" => ResponseData(request.version, 200, "OK", Some(index))
    case _ => ResponseData(request.version, 405, "Method Not Allowed", None)
  }

  /** The response never depends on the requested route. */
  lemma RouteNotConsulted(request: RequestData, route: string, index: string)
    ensures RequestResolver(request.(route := route), index) == RequestResolver(request, index)
  {
  }

  /**
   * Lines 139-143: parse, then resolve; only `AssertionError` is caught and
   * answered with 400, so a `ValueError` from unpacking the request line, or
   * a decoding error, escapes.
   */
  function Handle(request: Option<string>, index: string): (r: Outcome<ResponseData>)
    ensures r.Raised? ==> r.exc == ValueError || r.exc == UnicodeDecodeError
    ensures r.Returned? ==> ReasonPhrase(r.value.statusCode) == Some(r.value.statusText)
    ensures r.Returned? && r.value.statusCode == 400 ==> r.value == BadRequest
    ensures request.None? ==> r == Raised(UnicodeDecodeError)
  {
    match RequestParser(request)
    case Returned(parsed) => Returned(RequestResolver(parsed, index))
    case Raised(AssertionError) => Returned(BadRequest)
    case Raised(e) => Raised(e)
  }

  /** The text handed to `sendall` (before UTF-8 encoding), or the escaping exception. */
  function Serve(request: Option<string>, index: string): (r: Outcome<string>)
    ensures r.Raised? <==> Handle(request, index).Raised?
  {
    match Handle(request, index)
    case Returned(response) => Returned(ResponseBuilder(response))
    case Raised(e) => Raised(e)
  }

  /**
   * A well-formed request line of three space-free tokens: GET is answered 200
   * with the page, POST 405, anything else 400 with version HTTP/1.1; the
   * version is echoed except in the 400 case, and the route never matters.
   */
  lemma HandleRequestLine(d: RequestData, rest: string, index: string)
    requires Free(d.httpMethod, SP) && Free(d.route, SP) && Free(d.version, SP)
    requires Free(RequestLine(d), CRLF)
    ensures Handle(Some(RequestLine(d) + CRLF + rest), index) ==
              if d.httpMethod == "GET" then Returned(ResponseData(d.version, 200, "OK", Some(index)))
              else if d.httpMethod == "POST" then Returned(ResponseData(d.version, 405, "Method Not Allowed", None))
              else Returned(BadRequest)
  {
    var text := RequestLine(d) + CRLF + rest;
    ParseIgnoresRest(RequestLine(d), rest);
    ParseTextReturns(text, d);
    ParseTextAssertionError(text);
  }

  /**
   * The dispatcher answers 400 exactly when the first line is three tokens
   * whose method is neither GET nor POST.
   */
  lemma BadRequestExactly(text: string, index: string)
    ensures Handle(Some(text), index) == Returned(BadRequest) <==>
              exists d :: TokensOf(d, FirstLine(text)) && !IsHandledMethod(d.httpMethod)
  {
    ParseTextAssertionError(text);
  }

  /**
   * A request line of other than three space-separated fields makes the
   * unpacking raise `ValueError`, which the dispatcher does not catch.
   */
  lemma MalformedLineEscapes(fields: seq<string>, rest: string, index: string)
    requires |fields| >= 1 && |fields| != 3
    requires forall i :: 0 <= i < |fields| ==> Free(fields[i], SP)
    requires Free(Join(fields, SP), CRLF)
    ensures Handle(Some(Join(fields, SP) + CRLF + rest), index) == Raised(ValueError)
    ensures Serve(Some(Join(fields, SP) + CRLF + rest), index) == Raised(ValueError)
  {
    WrongFieldCount(fields, rest);
  }

  /**
   * What the client reads back from a well-formed request: after the first
   * blank line, the page for GET and the text `None` otherwise.
   */
  lemma ServedBody(d: RequestData, rest: string, index: string)
    requires Free(d.httpMethod, SP) && Free(d.route, SP) && Free(d.version, SP)
    requires Free(RequestLine(d), CRLF)
    ensures Serve(Some(RequestLine(d) + CRLF + rest), index).Returned?
    ensures Body(Serve(Some(RequestLine(d) + CRLF + rest), index).value) ==
              if d.httpMethod == "GET" then Some(index) else Some("None")
  {
    HandleRequestLine(d, rest, index);
    FreeSuffix(d.httpMethod + SP + d.route + SP, d.version, CRLF);
    assert Free("HTTP/1.1", CRLF) by { NoLeadFree("HTTP/1.1", CRLF); }
    var response := Handle(Some(RequestLine(d) + CRLF + rest), index).value;
    NoLeadFree(response.statusText, CRLF);
    ResponseRoundTrip(response);
  }

  /** `POST / HTTP/1.1` with any headers: 405 Method Not Allowed. */
  lemma PostIsNotAllowed(rest: string, index: string)
    ensures Handle(Some("POST / HTTP/1.1" + CRLF + rest), index) ==
              Returned(ResponseData("HTTP/1.1", 405, "Method Not Allowed", None))
  {
    var d := RequestData("POST", "/", "HTTP/1.1");
    assert RequestLine(d) == "POST / HTTP/1.1";
    NoLeadFree(d.httpMethod, SP);
    NoLeadFree(d.route, SP);
    NoLeadFree(d.version, SP);
    NoLeadFree(RequestLine(d), CRLF);
    HandleRequestLine(d, rest, index);
  }

  /** `DELETE /x HTTP/1.0`: 400 Bad Request, answered as HTTP/1.1. */
  lemma DeleteIsBadRequest(rest: string, index: string)
    ensures Handle(Some("DELETE /x HTTP/1.0" + CRLF + rest), index) == Returned(BadRequest)
  {
    var d := RequestData("DELETE", "/x", "HTTP/1.0");
    assert RequestLine(d) == "DELETE /x HTTP/1.0";
    NoLeadFree(d.httpMethod, SP);
    NoLeadFree(d.route, SP);
    NoLeadFree(d.version, SP);
    NoLeadFree(RequestLine(d), CRLF);
    HandleRequestLine(d, rest, index);
  }
}
