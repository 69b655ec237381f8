# A verified model of my_http_server.py

`my_http_server.py` is a minimal HTTP/1.1 server. For each connection it reads
one buffer of bytes, parses the request line, chooses a response from the
method, and sends back a status line, one `Content-Type` header, a blank line
and the payload. This project models the four functions that do that work,
and the try/except that ties them together, as pure Dafny functions. It then
proves what they do, including their quirks.

- `outcomes.dfy`: module `Outcomes`. Python's `None` and the exceptions the
  code can raise. A call is modelled as `Outcome<T> = Returned(T) | Raised(Exception)`.
- `strings.dfy`: module `Strings`. `str.split(sep)` for a non-empty
  separator. It cuts at the first occurrence from the left and carries on
  after it. The module proves that the result is never empty, that no piece
  holds the separator, and that split and `sep.join` undo each other.
- `decimal.dfy`: module `Decimal`. `str(n)` for the status code inside the
  f-string, and the lemma that its digits read back as `n`.
- `messages.dfy`: module `Messages`. The `RequestData` and `ResponseData`
  records, and the reason phrases of section 15 of RFC 9110 for the three
  codes the server sends.
- `parsing.dfy`: module `Parsing`. `request_parser`. The request is split on
  CRLF, and its first line is split on single spaces into exactly three tokens.
  This is the request-line shape of section 3 of RFC 9112, simplified.
  The unpacking raises `ValueError`; a method other than GET or POST fails the
  `assert`.
- `routing.dfy`: module `Routing`. `route_resolver` and its nested
  `find_route`. The JSON route table is the datatype
  `Router = Leaf(string) | Node(map<string, Router>)`.
- `responses.dfy`: module `Responses`. `response_builder`, the simplified
  message format of section 2.1 of RFC 9112 (status line, one header field,
  blank line, body), and the lemma that a receiver
  recovers the status line and the payload from the text it produces.
- `server.dfy`: module `Server`. `request_resolver`, and the per-connection
  step at lines 139-144. That step parses, resolves, answers a failed
  `assert` with 400, and lets every other exception escape.

Quirks of the code that a reader might not expect. The model follows the code
in each case:

- An absent payload is printed as the text `None`, not as an empty body.
- The leading `/` of a path is not stripped. It becomes an empty first
  segment.
- `request_resolver` never looks at the route. GET always serves the index
  page, and no response is ever 404.
- `route_resolver` returns `None`; see Findings.
- Only `AssertionError` is turned into 400. A request line that does not
  split into three tokens raises `ValueError`, and that exception escapes.
- There is no non-blocking multiplexer, no per-connection buffering and no
  search for CRLFCRLF. The server does one blocking `recv(1024)` per
  connection.

## Model

| member | source | states |
|---|---|---|
| `Strings.IndexOf` | my_http_server.py:45 | the separator occurs at the returned index and at no earlier index; `None` only when it occurs nowhere |
| `Strings.Split` | my_http_server.py:45-47 | `split` always yields at least one piece, so the `len(request_lines) > 0` assertion always holds; no piece contains the separator |
| `Strings.JoinSplit` | my_http_server.py:45 | joining the pieces of a split with the same separator gives back the original text |
| `Strings.SplitJoin` | my_http_server.py:51 | splitting the join of separator-free pieces gives the pieces back, when the separator cannot overlap itself (true of " ", "/" and CRLF) |
| `Strings.FirstPiece` | my_http_server.py:45-51 | `split(sep)[0]` is the text before the first occurrence: a prefix of the text with no occurrence starting inside it, followed by the separator unless it is the whole text |
| `Decimal.Digits` | my_http_server.py:120 | `str` of a natural number is a non-empty string of decimal digits with no leading zero |
| `Decimal.Str` | my_http_server.py:120 | `str(n)` is digits, with a leading `-` exactly when `n` is negative |
| `Decimal.DigitsValue` | my_http_server.py:120 | reading back the digits of `n` gives `n` |
| `Decimal.StrValue` | my_http_server.py:120 | reading back `str(n)` after its sign gives `n` |
| `Parsing.FirstLine` | my_http_server.py:45-51 | `request_lines[0]` is a prefix of the request with no CRLF in it, no CRLF starts before its end, and it is the whole request or is followed by CRLF |
| `Parsing.RequestParser` | my_http_server.py:33-55 | raises `UnicodeDecodeError` exactly when the bytes are not UTF-8; a parsed method is always GET or POST |
| `Parsing.ParseText` | my_http_server.py:43-55 | the only exceptions are `ValueError` and `AssertionError`; a returned method is GET or POST |
| `Parsing.TokensAreSplit` | my_http_server.py:51 | a line is three space-free tokens joined by single spaces exactly when its split on `" "` is those three tokens |
| `Parsing.TokensUnique` | my_http_server.py:51 | a line splits into three tokens in at most one way |
| `Parsing.ParseTextReturns` | my_http_server.py:45-55 | parsing returns `d` if and only if the first line is `d`'s method, route and version, space-free and joined by single spaces, with method GET or POST |
| `Parsing.ParseTextValueError` | my_http_server.py:51 | the unpacking raises `ValueError` if and only if the first line is not exactly three tokens separated by single spaces |
| `Parsing.ParseTextAssertionError` | my_http_server.py:47-53 | `AssertionError` is raised if and only if the first line is three tokens and the method is neither GET nor POST; the length assertion never fires |
| `Parsing.ParseIgnoresRest` | my_http_server.py:45-51 | everything after the first CRLF is ignored: parsing `line + CRLF + rest` is parsing `line` |
| `Parsing.ParseRoundTrip` | my_http_server.py:45-55 | printing a request line with GET or POST and parsing it gives back the same method, route and version |
| `Parsing.WrongFieldCount` | my_http_server.py:51 | a first line of one, two, four or more space-free fields raises `ValueError` |
| `Parsing.DoubleSpaceIsValueError` | my_http_server.py:51 | `GET  / HTTP/1.1`, with two spaces, has four fields, the second empty, and raises `ValueError` |
| `Routing.Lookup` | my_http_server.py:102 | `d[key]` returns the bound value exactly when the key is present, and raises `KeyError` when it is absent |
| `Routing.FindRoute` | my_http_server.py:100-107 | an empty segment list raises `IndexError`; every other failure is `KeyError`, including a first segment absent from the table; success needs at least one segment |
| `Routing.FindRouteSingle` | my_http_server.py:101-102 | with one segment left, `find_route` returns exactly what the table binds to it, leaf or subtree, and raises `KeyError` when the key is absent |
| `Routing.FindRouteAppend` | my_http_server.py:100-107 | walking one segment further looks that segment up in the subtree reached so far; after a leaf or a failure it raises `KeyError` |
| `Routing.OverSpecifiedPath` | my_http_server.py:104-106 | once a path reaches a string leaf, every longer path raises `KeyError` |
| `Routing.FailurePersists` | my_http_server.py:100-107 | a path that fails still fails with `KeyError` however it is extended |
| `Routing.RouteResolver` | my_http_server.py:78-107 | for every path and table it returns `None`: the root branch is dead because `split` never returns an empty list, and `find_route` is never called |
| `Routing.ResolveRoute` | my_http_server.py:88-107 | with `find_route` called on the path's segments, it only ever raises `KeyError`, and it raises it when the first segment is absent from the table |
| `Routing.ResolveRouteWalksSegments` | my_http_server.py:88-107 | for `/`-free segments, resolving them joined by `/` is `find_route` on exactly those segments (together with `FindRouteSingle` and `FindRouteAppend` this fixes every result) |
| `Routing.ResolveSingleSegment` | my_http_server.py:88-107 | a path without `/` resolves to the value the table binds to it, and raises `KeyError` when the table does not bind it |
| `Routing.LeadingSlash` | my_http_server.py:89 | a path starting with `/` has `""` as its first segment, so it fails unless the table binds `""` |
| `Routing.RouteResolverDropsRoute` | my_http_server.py:100-107 | for table `{"index": "index.html"}` and path `index`, `find_route` would return the leaf, but `route_resolver` returns `None` |
| `Responses.ResponseBuilder` | my_http_server.py:110-122 | the line-120 f-string: the text starts with `version SP str(code) SP reason` and CRLF and ends with the payload text (`None` when absent); `ResponseRoundTrip` and `StatusCodeRoundTrip` show a receiver recovers these parts |
| `Responses.StatusLineFree` | my_http_server.py:120 | the status line contains no CRLF when the version and the reason phrase contain none |
| `Responses.ResponseFirstLine` | my_http_server.py:120 | the text of a response before its first CRLF is `version SP code SP reason` |
| `Responses.ResponseHeaderEnd` | my_http_server.py:120 | the first blank line of a response is the one right after the `Content-Type` header |
| `Responses.ResponseRoundTrip` | my_http_server.py:119-122 | the text after the first blank line is exactly the payload, and an absent payload reads back as the literal `None`; the first line is the status line |
| `Responses.StatusCodeRoundTrip` | my_http_server.py:120 | the second space-separated field of the status line is `str(statusCode)`, and it reads back as the status code |
| `Server.RequestResolver` | my_http_server.py:58-75 | echoes the request's version; status 200 with the index content exactly for GET, and 405 with no payload otherwise; the reason phrase matches the code |
| `Server.RouteNotConsulted` | my_http_server.py:69-75 | the response does not depend on the requested route |
| `Server.Handle` | my_http_server.py:139-143 | only `ValueError` or `UnicodeDecodeError` escapes; every response carries the standard reason phrase for its code; a 400 response is the constant `Server.BadRequest` of line 143, `HTTP/1.1 400 Bad Request` with no payload |
| `Server.Serve` | my_http_server.py:139-144 | the server sends a response exactly when handling did not raise |
| `Server.HandleRequestLine` | my_http_server.py:139-143 | for a request line of three space-free tokens: GET gives 200 with the page, POST gives 405 with the request's version, and any other method gives 400 with version HTTP/1.1, whatever the route |
| `Server.BadRequestExactly` | my_http_server.py:139-143 | the answer is 400 exactly when the first line is three tokens and the method is neither GET nor POST |
| `Server.MalformedLineEscapes` | my_http_server.py:139-143 | a first line with other than three fields raises a `ValueError` that the dispatcher does not catch, so nothing is sent |
| `Server.ServedBody` | my_http_server.py:139-144 | for a well-formed request, the client reads the page after the blank line for GET and the text `None` otherwise |
| `Server.PostIsNotAllowed` | my_http_server.py:69-75 | `POST / HTTP/1.1` followed by any headers is answered `HTTP/1.1 405 Method Not Allowed` |
| `Server.DeleteIsBadRequest` | my_http_server.py:139-143 | `DELETE /x HTTP/1.0` is answered `400 Bad Request` with version HTTP/1.1, not the request's version |

## Findings

| source | as written | input that shows it | evidently intended | confidence | as-written member | corrected member |
|---|---|---|---|---|---|---|
| my_http_server.py:100-107 | `route_resolver` defines `find_route` but never calls it, so the function returns `None` despite its `-> str` annotation | path `index`, table `{"index": "index.html"}`: the result is `None`, not `"index.html"` | `return find_route(route_dict, path_steps)` after the definition | high; not executed | `Routing.RouteResolver` (`Routing.RouteResolverDropsRoute` exhibits the input) | `Routing.ResolveRoute` |

`request_resolver` never calls `route_resolver`, so neither resolver is used by
the dispatch model. What the corrected resolver returns is stated in general by
`Routing.ResolveRouteWalksSegments` and `Routing.ResolveSingleSegment`. The corrected resolver still looks up the empty segment
first for a path starting with `/`; see `Routing.LeadingSlash`.

## Left out

- The `__main__` loop (lines 125-144) is not modelled: `socket`, `bind`, `listen`, `accept`, `recv(1024)`, `sendall` and `print` are blocking network I/O. Only the parse, resolve and 400 step is modelled, as `Server.Handle` and `Server.Serve`.
- The `break` on an empty read (lines 137-138), which stops the whole server, is part of that I/O loop and is not modelled. For the same reason, requests longer than 1024 bytes are not truncated in the model.
- The random port choice with `randint` (line 7) is nondeterministic configuration and is not modelled.
- The read of `index.html` (line 71) is the `index` parameter. A missing or unreadable file is not modelled.
- The read of `address-resolver.json` with `json.load` (lines 92-93) is the `table` parameter. A missing file, invalid JSON and JSON values other than strings and objects are not modelled.
- UTF-8 decoding (line 44) is not modelled byte by byte. The parser receives the decoded text, or `None` for bytes that are not UTF-8. Encoding the response (line 122) is not modelled either; the model works with the text before encoding.
- The unused `HTTPError` class (lines 27-30) is not modelled.
- Running Python with `-O`, which removes `assert` statements, is not modelled.
- Decimal.Str: models `str(n)` for every integer, without the limit of Python 3.11 and later (`sys.get_int_max_str_digits()`, 4300 by default) beyond which converting an int raises `ValueError`; the server only formats the codes 200, 400 and 405, far below it.
- Server.Serve: its own contract says only when it raises. The text it sends is characterised by `Responses.ResponseRoundTrip` and `Server.ServedBody`.
