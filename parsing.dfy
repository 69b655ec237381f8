/**
 * `request_parser`: the decoded request is split on CRLF, its first line on
 * single spaces, and the three tokens become method, route and version; a
 * method other than GET or POST fails an `assert`.
 */
module Parsing {
  import opened Outcomes
  import opened Strings
  import opened Messages

  const SP: string := " "

  /** The methods the parser's `assert` lets through. */
  predicate IsHandledMethod(m: string) {
    m == "GET" || m == "POST"
  }

  /** The request line the three tokens stand for, joined by single spaces. */
  function RequestLine(d: RequestData): string {
    d.httpMethod + SP + d.route + SP + d.version
  }

  /** The text before the first CRLF (`request_str.split("\r\n")[0]`). */
  function FirstLine(text: string): (line: string)
    ensures line <= text && Free(line, CRLF)
    ensures line == text || Occurs(text, CRLF, |line|)
    ensures forall j: nat :: j < |line| ==> !Occurs(text, CRLF, j)
  {
    FirstPiece(text, CRLF);
    Split(text, CRLF)[0]
  }

  /** `d` holds three space-free tokens that, joined by single spaces, make `line`. */
  ghost predicate TokensOf(d: RequestData, line: string) {
    && Free(d.httpMethod, SP) && Free(d.route, SP) && Free(d.version, SP)
    && RequestLine(d) == line
  }

  /** `line` is exactly three tokens separated by single spaces. */
  ghost predicate HasThreeTokens(line: string) {
    exists d :: TokensOf(d, line)
  }

  /** Parsing of the decoded text (lines 45-55). */
  function ParseText(text: string): (r: Outcome<RequestData>)
    ensures r.Raised? ==> r.exc == ValueError || r.exc == AssertionError
    ensures r.Returned? ==> IsHandledMethod(r.value.httpMethod)
  {
    var lines := Split(text, CRLF);
    if |lines| == 0 then Raised(AssertionError)
    else
      var words := Split(lines[0], SP);
      if |words| != 3 then Raised(ValueError)
      else if !IsHandledMethod(words[0]) then Raised(AssertionError)
      else Returned(RequestData(words[0], words[1], words[2]))
  }

  /**
   * `request_parser(request)`: `request` is the outcome of UTF-8 decoding the
   * bytes, `None` when they are not valid UTF-8.
   */
  function RequestParser(request: Option<string>): (r: Outcome<RequestData>)
    ensures r == Raised(UnicodeDecodeError) <==> request.None?
    ensures r.Returned? ==> IsHandledMethod(r.value.httpMethod)
  {
    match request
    case None => Raised(UnicodeDecodeError)
    case Some(text) => ParseText(text)
  }

  /** The tokens of a line are the pieces of its split on single spaces. */
  lemma TokensAreSplit(d: RequestData, line: string)
    ensures TokensOf(d, line) <==> Split(line, SP) == [d.httpMethod, d.route, d.version]
  {
    var parts := [d.httpMethod, d.route, d.version];
    assert Join(parts, SP) == RequestLine(d) by {
      assert parts[1..] == [d.route, d.version];
      assert parts[1..][1..] == [d.version];
      assert Join(parts[1..], SP) == d.route + SP + d.version;
    }
    if TokensOf(d, line) {
      SeparatorsDoNotOverlap();
      SplitJoin(parts, SP);
    }
    if Split(line, SP) == parts {
      JoinSplit(line, SP);
      assert Free(parts[0], SP) && Free(parts[1], SP) && Free(parts[2], SP);
    }
  }

  /** A line has at most one way of being three space-separated tokens. */
  lemma TokensUnique(d1: RequestData, d2: RequestData, line: string)
    requires TokensOf(d1, line) && TokensOf(d2, line)
    ensures d1 == d2
  {
    TokensAreSplit(d1, line);
    TokensAreSplit(d2, line);
  }

  /**
   * Parsing succeeds with `d` exactly when the first line is `d`'s three
   * space-free tokens joined by single spaces and the method is GET or POST.
   */
  lemma ParseTextReturns(text: string, d: RequestData)
    ensures ParseText(text) == Returned(d) <==>
              TokensOf(d, FirstLine(text)) && IsHandledMethod(d.httpMethod)
  {
    TokensAreSplit(d, FirstLine(text));
  }

  /**
   * The unpacking into three names raises `ValueError` exactly when the first
   * line is not three tokens separated by single spaces.
   */
  lemma ParseTextValueError(text: string)
    ensures ParseText(text) == Raised(ValueError) <==> !HasThreeTokens(FirstLine(text))
  {
    var line := FirstLine(text);
    var words := Split(line, SP);
    if |words| == 3 {
      var d := RequestData(words[0], words[1], words[2]);
      assert words == [d.httpMethod, d.route, d.version];
      TokensAreSplit(d, line);
    }
    if HasThreeTokens(line) {
      var d :| TokensOf(d, line);
      TokensAreSplit(d, line);
    }
  }

  /**
   * The method `assert` fails exactly when the first line is three tokens and
   * the first is neither GET nor POST; the length `assert` never fails.
   */
  lemma ParseTextAssertionError(text: string)
    ensures ParseText(text) == Raised(AssertionError) <==>
              exists d :: TokensOf(d, FirstLine(text)) && !IsHandledMethod(d.httpMethod)
  {
    var line := FirstLine(text);
    var words := Split(line, SP);
    if |words| == 3 {
      var d := RequestData(words[0], words[1], words[2]);
      assert words == [d.httpMethod, d.route, d.version];
      TokensAreSplit(d, line);
    }
    if exists d :: TokensOf(d, line) && !IsHandledMethod(d.httpMethod) {
      var d :| TokensOf(d, line) && !IsHandledMethod(d.httpMethod);
      TokensAreSplit(d, line);
    }
  }

  /** Everything after the first CRLF (the headers and any body) is ignored. */
  lemma ParseIgnoresRest(line: string, rest: string)
    requires Free(line, CRLF)
    ensures FirstLine(line + CRLF + rest) == line
    ensures ParseText(line + CRLF + rest) == ParseText(line)
  {
    SeparatorsDoNotOverlap();
    FirstPieceOfJoin(line, CRLF, rest);
  }

  /** Printing a request line and parsing it again gives the same tokens. */
  lemma ParseRoundTrip(d: RequestData, rest: string)
    requires IsHandledMethod(d.httpMethod)
    requires Free(d.httpMethod, SP) && Free(d.route, SP) && Free(d.version, SP)
    requires Free(RequestLine(d), CRLF)
    ensures ParseText(RequestLine(d) + CRLF + rest) == Returned(d)
  {
    ParseIgnoresRest(RequestLine(d), rest);
    ParseTextReturns(RequestLine(d) + CRLF + rest, d);
  }

  /**
   * A first line of space-free fields, other than three of them, raises
   * `ValueError`: extra tokens, too few, or an empty field between two
   * consecutive spaces.
   */
  lemma {:induction false} WrongFieldCount(fields: seq<string>, rest: string)
    requires |fields| >= 1 && |fields| != 3
    requires forall i :: 0 <= i < |fields| ==> Free(fields[i], SP)
    requires Free(Join(fields, SP), CRLF)
    ensures ParseText(Join(fields, SP) + CRLF + rest) == Raised(ValueError)
  {
    SeparatorsDoNotOverlap();
    ParseIgnoresRest(Join(fields, SP), rest);
    SplitJoin(fields, SP);
  }

  /** Two spaces in a row: `GET  / HTTP/1.1` has four fields, the second empty. */
  lemma DoubleSpaceIsValueError(rest: string)
    ensures ParseText("GET  / HTTP/1.1" + CRLF + rest) == Raised(ValueError)
  {
    var fields := ["GET", "", "/", "HTTP/1.1"];
    assert Join(fields, SP) == "GET  / HTTP/1.1" by {
      assert fields[1..] == ["", "/", "HTTP/1.1"];
      assert fields[1..][1..] == ["/", "HTTP/1.1"];
      assert fields[1..][1..][1..] == ["HTTP/1.1"];
    }
    forall i | 0 <= i < |fields| ensures Free(fields[i], SP) {
      NoLeadFree(fields[i], SP);
    }
    NoLeadFree("GET  / HTTP/1.1", CRLF);
    WrongFieldCount(fields, rest);
  }
}
