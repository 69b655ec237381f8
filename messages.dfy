/**
 * The server's two records: a parsed request line and the data of a response
 * (`RequestData` and `ResponseData` in my_http_server.py).
 */
module Messages {
  import opened Outcomes

  /** The three tokens of a request line (`httpMethod` is the source's `method`). */
  datatype RequestData = RequestData(httpMethod: string, route: string, version: string)

  /** A response before serialisation; `payload` is `None` when there is no body. */
  datatype ResponseData = ResponseData(
    version: string,
    statusCode: int,
    statusText: string,
    payload: Option<string>)

  /**
   * The reason phrases of the three status codes the server sends, as
   * section 15 of RFC 9110 names them.
   */
  function ReasonPhrase(code: int): Option<string> {
    match code
    case 200 => Some("OK")
    case 400 => Some("Bad Request")
    case 405 => Some("Method Not Allowed")
    case _ => None
  }
}
