/** What a client can read off a reply: the status line, the defaults, and the replies that no route
    handler makes. */
module HttpReplies {
  import opened Text
  import opened Decimal
  import opened HttpRequest
  import opened MessageHead
  import opened HttpResponse
  import opened HttpProtocolHandler

  // ---------------------------------------------------------------- the status line

  /** The status codes of section 15 of RFC 9110 that the server knows, with their phrases. */
  function CodeAndPhrase(status: Status): (string, string) {
    match status
    case OK => ("200", "OK")
    case CREATED => ("201", "Created")
    case ACCEPTED => ("202", "Accepted")
    case NO_CONTENT => ("204", "No Content")
    case MOVED_PERMANENTLY => ("301", "Moved Permanently")
    case FOUND => ("302", "Found")
    case SEE_OTHER => ("303", "See Other")
    case NOT_MODIFIED => ("304", "Not Modified")
    case TEMPORARY_REDIRECT => ("307", "Temporary Redirect")
    case PERMANENT_REDIRECT => ("308", "Permanent Redirect")
    case BAD_REQUEST => ("400", "Bad Request")
    case UNAUTHORIZED => ("401", "Unauthorized")
    case FORBIDDEN => ("403", "Forbidden")
    case NOT_FOUND => ("404", "Not Found")
    case METHOD_NOT_ALLOWED => ("405", "Method Not Allowed")
    case INTERNAL_SERVER_ERROR => ("500", "Internal Server Error")
    case NOT_IMPLEMENTED => ("501", "Not Implemented")
    case BAD_GATEWAY => ("502", "Bad Gateway")
    case SERVICE_UNAVAILABLE => ("503", "Service Unavailable")
    case GATEWAY_TIMEOUT => ("504", "Gateway Timeout")
    case HTTP_VERSION_NOT_SUPPORTED => ("505", "HTTP Version Not Supported")
  }

  lemma ThreeDigits(n: nat)
    requires 100 <= n < 1000
    ensures Decimal.ToString(n) == [Digit(n / 100), Digit(n / 10 % 10), Digit(n % 10)]
  {
    assert Decimal.ToString(n / 100) == [Digit(n / 100)];
    assert n / 10 / 10 == n / 100;
    assert Decimal.ToString(n / 10) == [Digit(n / 100), Digit(n / 10 % 10)];
  }

  lemma PhraseIs(status: Status)
    ensures CodeAndPhrase(status).1 == Description(status)
  {
  }

  lemma CodeIs(status: Status)
    ensures Decimal.ToString(Code(status)) == CodeAndPhrase(status).0
  {
    ThreeDigits(Code(status));
    hide Decimal.ToString;
  }

  /** Every response begins with the version, its code and its phrase. */
  lemma {:induction false} StatusLine(status: Status, headers: Fields, order: seq<string>, body: string)
    requires forall k :: k in order ==> k in headers
    ensures var (code, phrase) := CodeAndPhrase(status);
            "HTTP/1.1 " + code + " " + phrase + "\r\n" <= ResponseText(status, headers, order, body)
  {
    PhraseIs(status);
    CodeIs(status);
    hide CodeAndPhrase, Decimal.ToString, Description, Code, ResponseHeaders, HeaderLines;
  }

  // ---------------------------------------------------------------- the default headers

  /** Every response carries the three defaults, whatever its route handler set in their place. */
  lemma {:induction false} DefaultsArrive(own: Fields, length: nat)
    ensures var received := Received(own + CORS, length);
            && "Access-Control-Allow-Origin" in received
            && received["Access-Control-Allow-Origin"] == " " + "*" + "\r"
            && "Access-Control-Allow-Methods" in received
            && received["Access-Control-Allow-Methods"] == " " + "GET, POST, PUT, DELETE, OPTIONS" + "\r"
            && "Access-Control-Allow-Headers" in received
            && received["Access-Control-Allow-Headers"] == " " + "Content-Type, Authorization" + "\r"
  {
    CorsByName();
    HeadersRoundTrip(own, length, ALLOW_ORIGIN);
    HeadersRoundTrip(own, length, ALLOW_METHODS);
    HeadersRoundTrip(own, length, ALLOW_HEADERS);
    hide Received;
  }

  lemma CorsByName()
    ensures ALLOW_ORIGIN in CORS && CORS[ALLOW_ORIGIN] == "*"
    ensures ALLOW_METHODS in CORS && CORS[ALLOW_METHODS] == "GET, POST, PUT, DELETE, OPTIONS"
    ensures ALLOW_HEADERS in CORS && CORS[ALLOW_HEADERS] == "Content-Type, Authorization"
  {
    NamesDiffer();
  }

  lemma NamesDiffer()
    ensures ALLOW_ORIGIN != ALLOW_METHODS && ALLOW_METHODS != ALLOW_HEADERS && ALLOW_HEADERS != ALLOW_ORIGIN
  {
    assert |ALLOW_ORIGIN| == 27 && |ALLOW_METHODS| == 28 && |ALLOW_HEADERS| == 28;
    assert ALLOW_METHODS[21] == 'M' && ALLOW_HEADERS[21] == 'H';
  }

  lemma CorsNames(k: string)
    requires k in CORS
    ensures k == ALLOW_ORIGIN || k == ALLOW_METHODS || k == ALLOW_HEADERS
  {
  }

  lemma NamesAreOthers()
    ensures "Content-Length" !in CORS && "Content-Encoding" !in CORS && "Content-Type" !in CORS && "Connection" !in CORS
  {
    if k :| k in CORS && k[0] != 'A' {
      CorsNames(k);
    }
    assert "Content-Length"[0] == "Content-Encoding"[0] == "Content-Type"[0] == "Connection"[0] == 'C';
  }

  // ---------------------------------------------------------------- replies without a route handler

  /** No header but, possibly, the announcement of keep-alive. */
  predicate Bare(own: Fields) {
    own == map[] || own == map["Connection" := "keep-alive"]
  }

  lemma BareHeaders(own: Fields, length: nat)
    requires Bare(own) && length <= 2147483647
    ensures var received := Received(own + CORS, length);
            && "Content-Length" in received && StoI(received["Content-Length"]) == Ok(length)
            && !IsCompressed(received) && !IsMultipart(received)
    ensures PrintableFields(own)
  {
    NamesAreOthers();
    assert "Connection"[3] != "Content-Length"[3] && "Content-Length"[3] == "Content-Encoding"[3] == "Content-Type"[3];
    LengthRoundTrip(own, length);
    HeadersRoundTrip(own, length, "Content-Encoding");
    HeadersRoundTrip(own, length, "Content-Type");
    BareIsPrintable(own);
    hide CORS, StoI, Decimal.ToString, PrintableFields;
  }

  lemma BareIsPrintable(own: Fields)
    requires Bare(own)
    ensures PrintableFields(own)
  {
    if own != map[] {
      NothingToPrint();
      AnswerIsPrintable(map[]);
    }
  }

  /** A response without headers of its own is read back whole: its code as the path, and its body. */
  lemma BareResponse(r: Request, status: Status, own: Fields, order: seq<string>, answer: string,
                     inflate: string -> string)
    requires Bare(own) && Enumerates(order, own + CORS) && |answer| <= 2147483647
    ensures var (back, outcome) := Parse(r, ResponseText(status, own + CORS, order, answer), inflate);
            && outcome.Ok? && back.path == CodeAndPhrase(status).0 && back.body == answer
            && back.headers == Received(own + CORS, |answer|)
  {
    BareHeaders(own, |answer|);
    CodeIs(status);
    hide Parse, ResponseText, Received, CORS, StoI, IsCompressed, IsMultipart, Bare, Enumerates, CodeAndPhrase,
      Decimal.ToString, Code, PrintableFields;
    ResponseRoundTrip(r, status, own, order, answer, inflate);
  }

  /** What arrives: this code, this body, and nothing thrown. */
  predicate Arrived(r: Request, text: string, inflate: string -> string, code: string, body: string) {
    var (back, outcome) := Parse(r, text, inflate);
    outcome.Ok? && back.path == code && back.body == body
  }

  /** The reply to a request without a route. */
  function NotFound(keep: bool, order: Fields -> seq<string>): string
    requires IsOrder(order)
  {
    var headers := Announced(map[], keep) + CORS;
    ResponseText(NOT_FOUND, headers, order(headers), "Not Found")
  }

  lemma NotFoundArrives(keep: bool, order: Fields -> seq<string>, inflate: string -> string, r: Request)
    requires IsOrder(order)
    ensures Arrived(r, NotFound(keep, order), inflate, "404", "Not Found")
    ensures Parse(r, NotFound(keep, order), inflate).0.headers == Received(Announced(map[], keep) + CORS, 9)
    ensures "HTTP/1.1 404 Not Found\r\n" <= NotFound(keep, order)
  {
    var own := Announced(map[], keep);
    NotFoundLine(own, order(own + CORS));
    hide Parse, ResponseText, Received, CORS, Enumerates, CodeAndPhrase;
    NotFoundCode();
    BareResponse(r, NOT_FOUND, own, order(own + CORS), "Not Found", inflate);
  }

  lemma NotFoundCode()
    ensures CodeAndPhrase(NOT_FOUND).0 == "404" && |"Not Found"| == 9
  {
  }

  /** A request that parses and has no route gets the code 404 and a body that says so, with keep-alive
      announced when it was asked for. */
  lemma {:induction false} NoRouteIsNotFound(text: string, route: Request -> Handled, order: Fields -> seq<string>,
                                             inflate: string -> string, r: Request)
    requires text != "" && Parse(EMPTY, text, inflate).1.Ok? && IsOrder(order)
    requires route(Parse(EMPTY, text, inflate).0) == NoRoute
    ensures var reply, keep := Reply(Data(text), route, order, inflate),
                               AsksForKeepAlive(Parse(EMPTY, text, inflate).0, order);
            && reply.Some? && Arrived(r, reply.value, inflate, "404", "Not Found")
            && "HTTP/1.1 404 Not Found\r\n" <= reply.value
            && SaysKeepAlive(Parse(r, reply.value, inflate).0.headers) == keep
  {
    var keep := AsksForKeepAlive(Parse(EMPTY, text, inflate).0, order);
    NoRouteReply(text, route, order, inflate);
    SaysKeepAliveIff(map[], keep, 9);
    hide Parse, Received, CORS, SaysKeepAlive, AsksForKeepAlive, Reply, IsOrder, NotFound, Arrived;
    NotFoundArrives(keep, order, inflate, r);
  }

  lemma NoRouteReply(text: string, route: Request -> Handled, order: Fields -> seq<string>, inflate: string -> string)
    requires text != "" && Parse(EMPTY, text, inflate).1.Ok? && IsOrder(order)
    requires route(Parse(EMPTY, text, inflate).0) == NoRoute
    ensures Reply(Data(text), route, order, inflate)
         == Some(NotFound(AsksForKeepAlive(Parse(EMPTY, text, inflate).0, order), order))
  {
    hide Parse, ResponseText, CORS;
  }

  lemma NotFoundLine(headers: Fields, order: seq<string>)
    requires Enumerates(order, headers + CORS)
    ensures "HTTP/1.1 404 Not Found\r\n" <= ResponseText(NOT_FOUND, headers + CORS, order, "Not Found")
  {
    hide CORS, ResponseText;
    StatusLine(NOT_FOUND, headers + CORS, order, "Not Found");
    assert "HTTP/1.1 " + "404" + " " + "Not Found" + "\r\n" == "HTTP/1.1 404 Not Found\r\n";
  }

  /** A client that sends nothing gets the code 502. */
  lemma {:induction false} NothingReadIsBadGateway(route: Request -> Handled, order: Fields -> seq<string>,
                                                   inflate: string -> string, r: Request)
    requires IsOrder(order)
    ensures var reply := Reply(Data(""), route, order, inflate);
            reply.Some? && Arrived(r, reply.value, inflate, "502", "Not Found")
  {
    hide Parse, ResponseText, Received, CORS, Enumerates;
    assert map[] + CORS == CORS;
    BareResponse(r, BAD_GATEWAY, map[], order(CORS), "Not Found", inflate);
  }

  /** Nothing is sent exactly when the read failed, the request did not parse, or its handler threw. */
  lemma {:induction false} NoReplyIff(input: Input, route: Request -> Handled, order: Fields -> seq<string>,
                                      inflate: string -> string)
    requires IsOrder(order)
    ensures Reply(input, route, order, inflate) == None <==>
              || input == ReadFailed
              || (input.text != "" && Parse(EMPTY, input.text, inflate).1.Err?)
              || (input.text != "" && route(Parse(EMPTY, input.text, inflate).0) == Threw)
  {
    hide Parse, ResponseText, CORS, Answer;
  }
}
