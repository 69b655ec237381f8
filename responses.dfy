/**
 * `response_builder`: the status line, one `Content-Type` header, a blank
 * line and the payload, formatted by a single f-string.
 */
module Responses {
  import opened Outcomes
  import opened Strings
  import opened Decimal
  import opened Messages

  const ContentType: string := "Content-Type: text/html; charset=utf-8"

  /** The blank line that ends the header section. */
  const HeaderEnd: string := CRLF + CRLF

  /** How the f-string prints the payload: an absent one is the text `None`. */
  function PayloadText(payload: Option<string>): string {
    match payload
    case Some(p) => p
    case None => "None"
  }

  /** `{version} {statusCode} {statusText}`. */
  function StatusLine(r: ResponseData): string {
    r.version + " " + Str(r.statusCode) + " " + r.statusText
  }

  /**
   * The response text before it is UTF-8 encoded (lines 119-121): it starts
   * with the status line, then a CRLF, and ends with the payload text.
   */
  function ResponseBuilder(r: ResponseData): (wire: string)
    ensures StatusLine(r) + CRLF <= wire
    ensures |PayloadText(r.payload)| <= |wire|
    ensures wire[|wire| - |PayloadText(r.payload)|..] == PayloadText(r.payload)
  {
    StatusLine(r) + CRLF + ContentType + CRLF + CRLF + PayloadText(r.payload)
  }

  /** What a receiver reads as the body: the text after the first blank line. */
  function Body(wire: string): Option<string> {
    match IndexOf(wire, HeaderEnd)
    case Some(k) => if k + |HeaderEnd| <= |wire| then Some(wire[k + |HeaderEnd|..]) else None
    case None => None
  }

  lemma NoCarriageReturnInContentType()
    ensures forall i :: 0 <= i < |ContentType| ==> ContentType[i] != '\r'
  {
  }

  /** The status line holds no CRLF when the version and the reason phrase hold none. */
  lemma StatusLineFree(r: ResponseData)
    requires Free(r.version, CRLF) && Free(r.statusText, CRLF)
    ensures Free(StatusLine(r), CRLF)
  {
    var code := Str(r.statusCode);
    NoLeadFree(" ", CRLF);
    NoLeadFree(code, CRLF);
    FreeConcat(r.version, " ", CRLF);
    FreeConcat(r.version + " ", code, CRLF);
    FreeConcat(r.version + " " + code, " ", CRLF);
    FreeConcat(r.version + " " + code + " ", r.statusText, CRLF);
  }

  /**
   * In `line + CRLF + ContentType`, with `line` free of CRLF, the only CRLF
   * is the one after `line`.
   */
  lemma OnlyCrlfAfterStatusLine(line: string)
    requires Free(line, CRLF)
    ensures forall j: nat :: j != |line| ==> !Occurs(line + CRLF + ContentType, CRLF, j)
  {
    var head := line + CRLF + ContentType;
    NoCarriageReturnInContentType();
    forall j: nat | j != |line| && j + 2 <= |head| ensures !Occurs(head, CRLF, j) {
      if j + 2 <= |line| {
        assert head[j..j + 2] == line[j..j + 2];
        assert !Occurs(line, CRLF, j);
      } else if j == |line| - 1 {
        assert head[j..j + 2][1] == '\r';
      } else if j == |line| + 1 {
        assert head[j..j + 2][0] == '\n';
      } else {
        assert head[j..j + 2][0] == ContentType[j - |line| - 2];
      }
    }
  }

  /** The header section holds no blank line before the one that ends it. */
  lemma HeadHasNoBlankLine(line: string)
    requires Free(line, CRLF)
    ensures Free(line + CRLF + ContentType, HeaderEnd)
  {
    var head := line + CRLF + ContentType;
    OnlyCrlfAfterStatusLine(line);
    assert |HeaderEnd| == 4 && HeaderEnd[..2] == CRLF && HeaderEnd[2..] == CRLF;
    forall j: nat | j + 4 <= |head| ensures !Occurs(head, HeaderEnd, j) {
      assert head[j..j + 4][..2] == head[j..j + 2];
      assert head[j..j + 4][2..] == head[j + 2..j + 4];
      if j == |line| {
        assert !Occurs(head, CRLF, j + 2);
      } else {
        assert !Occurs(head, CRLF, j);
      }
    }
  }

  /** The text before the first CRLF of a response is its status line. */
  lemma ResponseFirstLine(r: ResponseData)
    requires Free(r.version, CRLF) && Free(r.statusText, CRLF)
    ensures Split(ResponseBuilder(r), CRLF)[0] == StatusLine(r)
  {
    var line := StatusLine(r);
    StatusLineFree(r);
    SeparatorsDoNotOverlap();
    assert ResponseBuilder(r) == line + CRLF + (ContentType + HeaderEnd + PayloadText(r.payload));
    FirstPieceOfJoin(line, CRLF, ContentType + HeaderEnd + PayloadText(r.payload));
  }

  /** The first blank line of a response is the one after its header. */
  lemma ResponseHeaderEnd(line: string, payload: string)
    requires Free(line, CRLF)
    ensures IndexOf(line + CRLF + ContentType + HeaderEnd + payload, HeaderEnd) ==
              Some(|line + CRLF + ContentType|)
  {
    var head := line + CRLF + ContentType;
    var w := head + HeaderEnd + payload;
    HeadHasNoBlankLine(line);
    NoCarriageReturnInContentType();
    forall j: nat | j < |head| < j + |HeaderEnd| ensures !Occurs(w, HeaderEnd, j) {
      assert w[j..j + 4][0] == ContentType[j - |line| - 2];
    }
    FirstOccurrence(head, HeaderEnd, payload);
  }

  /**
   * The response round trip: when the version and the reason phrase hold no
   * CRLF, the text before the first CRLF is the status line and the text after
   * the first blank line is exactly the payload, `None` when it is absent.
   */
  lemma ResponseRoundTrip(r: ResponseData)
    requires Free(r.version, CRLF) && Free(r.statusText, CRLF)
    ensures Split(ResponseBuilder(r), CRLF)[0] == StatusLine(r)
    ensures Body(ResponseBuilder(r)) == Some(PayloadText(r.payload))
    ensures r.payload.None? ==> Body(ResponseBuilder(r)) == Some("None")
  {
    var line := StatusLine(r);
    var head := line + CRLF + ContentType;
    var payload := PayloadText(r.payload);
    ResponseFirstLine(r);
    StatusLineFree(r);
    ResponseHeaderEnd(line, payload);
    assert ResponseBuilder(r) == head + HeaderEnd + payload;
    assert (head + HeaderEnd + payload)[|head| + 4..] == payload;
  }

  /** The status code can be read back from the status line's digits. */
  lemma StatusCodeRoundTrip(r: ResponseData)
    requires r.statusCode >= 0
    requires Free(r.version, " ")
    ensures Split(StatusLine(r), " ")[0] == r.version
    ensures Split(StatusLine(r), " ")[1] == Str(r.statusCode)
    ensures Value(Split(StatusLine(r), " ")[1]) == r.statusCode
  {
    var code := Str(r.statusCode);
    SeparatorsDoNotOverlap();
    NoLeadFree(code, " ");
    FirstPieceOfJoin(r.version, " ", code + " " + r.statusText);
    assert StatusLine(r) == r.version + " " + (code + " " + r.statusText);
    FirstPieceOfJoin(code, " ", r.statusText);
    var rest := code + " " + r.statusText;
    var line := r.version + " " + rest;
    FirstOccurrence(r.version, " ", rest);
    assert line[..|r.version|] == r.version;
    assert line[|r.version| + 1..] == rest;
    assert Split(line, " ") == [r.version] + Split(rest, " ");
    StrValue(r.statusCode);
  }
}
