/** The response printer, and what the request parser of the same server makes of its output. */
module HttpResponse {
  import opened Text
  import opened Decimal
  import opened HttpRequest
  import opened MessageHead
  import opened RequestRoundTrip

  datatype Status =
    | OK | CREATED | ACCEPTED | NO_CONTENT
    | MOVED_PERMANENTLY | FOUND | SEE_OTHER | NOT_MODIFIED | TEMPORARY_REDIRECT | PERMANENT_REDIRECT
    | BAD_REQUEST | UNAUTHORIZED | FORBIDDEN | NOT_FOUND | METHOD_NOT_ALLOWED
    | INTERNAL_SERVER_ERROR | NOT_IMPLEMENTED | BAD_GATEWAY | SERVICE_UNAVAILABLE | GATEWAY_TIMEOUT
    | HTTP_VERSION_NOT_SUPPORTED

  function Code(status: Status): nat {
    match status
    case OK => 200
    case CREATED => 201
    case ACCEPTED => 202
    case NO_CONTENT => 204
    case MOVED_PERMANENTLY => 301
    case FOUND => 302
    case SEE_OTHER => 303
    case NOT_MODIFIED => 304
    case TEMPORARY_REDIRECT => 307
    case PERMANENT_REDIRECT => 308
    case BAD_REQUEST => 400
    case UNAUTHORIZED => 401
    case FORBIDDEN => 403
    case NOT_FOUND => 404
    case METHOD_NOT_ALLOWED => 405
    case INTERNAL_SERVER_ERROR => 500
    case NOT_IMPLEMENTED => 501
    case BAD_GATEWAY => 502
    case SERVICE_UNAVAILABLE => 503
    case GATEWAY_TIMEOUT => 504
    case HTTP_VERSION_NOT_SUPPORTED => 505
  }

  function Description(status: Status): string {
    match status
    case OK => "OK"
    case CREATED => "Created"
    case ACCEPTED => "Accepted"
    case NO_CONTENT => "No Content"
    case MOVED_PERMANENTLY => "Moved Permanently"
    case FOUND => "Found"
    case SEE_OTHER => "See Other"
    case NOT_MODIFIED => "Not Modified"
    case TEMPORARY_REDIRECT => "Temporary Redirect"
    case PERMANENT_REDIRECT => "Permanent Redirect"
    case BAD_REQUEST => "Bad Request"
    case UNAUTHORIZED => "Unauthorized"
    case FORBIDDEN => "Forbidden"
    case NOT_FOUND => "Not Found"
    case METHOD_NOT_ALLOWED => "Method Not Allowed"
    case INTERNAL_SERVER_ERROR => "Internal Server Error"
    case NOT_IMPLEMENTED => "Not Implemented"
    case BAD_GATEWAY => "Bad Gateway"
    case SERVICE_UNAVAILABLE => "Service Unavailable"
    case GATEWAY_TIMEOUT => "Gateway Timeout"
    case HTTP_VERSION_NOT_SUPPORTED => "HTTP Version Not Supported"
  }

  const ALLOW_ORIGIN: string := "Access-Control-Allow-Origin"
  const ALLOW_METHODS: string := "Access-Control-Allow-Methods"
  const ALLOW_HEADERS: string := "Access-Control-Allow-Headers"
  const CORS_ORIGIN: string := "*"
  const CORS_METHODS: string := "GET, POST, PUT, DELETE, OPTIONS"
  const CORS_HEADERS: string := "Content-Type, Authorization"

  const CORS: Fields := map[ALLOW_ORIGIN := CORS_ORIGIN, ALLOW_METHODS := CORS_METHODS, ALLOW_HEADERS := CORS_HEADERS]

  function InOrder(headers: Fields, order: seq<string>): seq<Header>
    requires forall k :: k in order ==> k in headers
  {
    if order == [] then [] else [Header(order[0], headers[order[0]])] + InOrder(headers, order[1..])
  }

  function ResponseHeaders(headers: Fields, order: seq<string>, length: nat): seq<Header>
    requires forall k :: k in order ==> k in headers
  {
    [Header("Content-Length", Decimal.ToString(length))] + InOrder(headers, order)
  }

  /** A response in the format of section 2.1 of RFC 9112. */
  function ResponseText(status: Status, headers: Fields, order: seq<string>, body: string): string
    requires forall k :: k in order ==> k in headers
  {
    Message("HTTP/1.1 " + Decimal.ToString(Code(status)) + " " + Description(status),
            ResponseHeaders(headers, order, |body|), body)
  }

  // ---------------------------------------------------------------- the class

  class HttpResponse {
    var mStatusCode: Status
    var mContentType: string
    var mBody: string
    var mHeaders: Fields

    constructor (code: Status, contentType: string, body: string)
      ensures mStatusCode == code && mContentType == contentType && mBody == body && mHeaders == map[]
    {
      mStatusCode, mContentType, mBody, mHeaders := code, contentType, body, map[];
    }

    method AddHeader(name: string, value: string)
      modifies this`mHeaders
      ensures mHeaders == old(mHeaders)[name := value]
    {
      mHeaders := mHeaders[name := value];
    }

    method SetHeaders(headers: Fields, order: seq<string>)
      requires Enumerates(order, headers)
      modifies this`mHeaders
      ensures mHeaders == old(mHeaders) + headers
    {
      var i := 0;
      while i < |order|
        invariant 0 <= i <= |order|
        invariant AddAll(mHeaders, headers, order[i..]) == AddAll(old(mHeaders), headers, order)
      {
        assert order[i..][1..] == order[i + 1..];
        AddHeader(order[i], headers[order[i]]);
        i := i + 1;
      }
      AddAllMerges(old(mHeaders), headers, order);
    }

    method AddCorsHeaders()
      modifies this`mHeaders
      ensures mHeaders == old(mHeaders) + CORS
    {
      AddHeader(ALLOW_HEADERS, CORS_HEADERS);
      AddHeader(ALLOW_METHODS, CORS_METHODS);
      AddHeader(ALLOW_ORIGIN, CORS_ORIGIN);
    }

    method ToString(order: seq<string>) returns (response: string)
      requires Enumerates(order, mHeaders + CORS)
      modifies this`mHeaders
      ensures mHeaders == old(mHeaders) + CORS
      ensures response == ResponseText(mStatusCode, mHeaders, order, mBody)
    {
      AddCorsHeaders();
      hide Decimal.ToString, Code, Description;
      var start := "HTTP/1.1 " + Decimal.ToString(Code(mStatusCode)) + " " + Description(mStatusCode);
      var first := Header("Content-Length", Decimal.ToString(|mBody|));
      response := start + "\r\n";
      response := response + "Content-Length: " + Decimal.ToString(|mBody|) + "\r\n";
      assert response == start + "\r\n" + HeaderLine(first);
      var i := 0;
      while i < |order|
        invariant 0 <= i <= |order|
        invariant mHeaders == old(mHeaders) + CORS
        invariant response + HeaderLines(InOrder(mHeaders, order[i..]))
               == start + "\r\n" + HeaderLine(first) + HeaderLines(InOrder(mHeaders, order))
      {
        LineInOrder(mHeaders, order, i);
        Associative(response, HeaderLine(Header(order[i], mHeaders[order[i]])),
                    HeaderLines(InOrder(mHeaders, order[i + 1..])));
        response := response + (order[i] + ": " + mHeaders[order[i]] + "\r\n");
        i := i + 1;
      }
      assert response + HeaderLines(InOrder(mHeaders, order[i..])) == response;
      MessageByLines(start, first, InOrder(mHeaders, order), mBody);
      response := response + ("\r\n" + mBody);
    }
  }

  function AddAll(m: Fields, headers: Fields, order: seq<string>): Fields
    requires forall k :: k in order ==> k in headers
    decreases |order|
  {
    if order == [] then m else AddAll(m[order[0] := headers[order[0]]], headers, order[1..])
  }

  lemma {:induction false} AddAllKeys(m: Fields, headers: Fields, order: seq<string>, k: string)
    requires forall j :: j in order ==> j in headers
    ensures k in order ==> k in AddAll(m, headers, order) && AddAll(m, headers, order)[k] == headers[k]
    ensures k !in order ==> (k in AddAll(m, headers, order) <==> k in m)
                            && (k in m ==> AddAll(m, headers, order)[k] == m[k])
    decreases |order|
  {
    if order != [] {
      AddAllKeys(m[order[0] := headers[order[0]]], headers, order[1..], k);
    }
  }

  /** Adding headers one by one merges the maps, whatever the order. */
  lemma {:induction false} AddAllMerges(m: Fields, headers: Fields, order: seq<string>)
    requires Enumerates(order, headers)
    ensures AddAll(m, headers, order) == m + headers
  {
    forall k ensures k in AddAll(m, headers, order) <==> k in m + headers
      ensures k in m + headers ==> k in AddAll(m, headers, order) && AddAll(m, headers, order)[k] == (m + headers)[k] {
      AddAllKeys(m, headers, order, k);
    }
    hide AddAll;
  }

  /** Two responses that differ in their content type alone print the same text. */
  method ContentTypeIsNotSent(status: Status, body: string, order: seq<string>) returns (html: string, plain: string)
    requires Enumerates(order, CORS)
    ensures html == plain == ResponseText(status, CORS, order, body)
  {
    hide CORS, ResponseText;
    var one := new HttpResponse(status, "text/html", body);
    var two := new HttpResponse(status, "text/plain", body);
    assert map[] + CORS == CORS;
    html := one.ToString(order);
    plain := two.ToString(order);
  }

  lemma LineInOrder(headers: Fields, order: seq<string>, i: nat)
    requires i < |order| && forall k :: k in order ==> k in headers
    ensures HeaderLines(InOrder(headers, order[i..]))
         == HeaderLine(Header(order[i], headers[order[i]])) + HeaderLines(InOrder(headers, order[i + 1..]))
  {
    assert order[i..][1..] == order[i + 1..];
    assert InOrder(headers, order[i..])[1..] == InOrder(headers, order[i + 1..]);
  }

  lemma MessageByLines(start: string, first: Header, rest: seq<Header>, body: string)
    ensures Message(start, [first] + rest, body)
         == start + "\r\n" + HeaderLine(first) + HeaderLines(rest) + ("\r\n" + body)
  {
    hide HeaderLine;
    assert ([first] + rest)[1..] == rest;
  }

  // ---------------------------------------------------------------- printed and parsed

  predicate PrintableFields(headers: Fields) {
    forall k :: k in headers ==> Printable(Header(k, headers[k]))
  }

  /** What arrives: the length of the body, unless a header of that name replaces it, and every
      header, each value with the space before it and the carriage return after it. */
  function Received(headers: Fields, length: nat): Fields {
    map["Content-Length" := " " + Decimal.ToString(length) + "\r"]
    + map k | k in headers :: StoredValue(Header(k, headers[k]))
  }

  lemma {:induction false} StoredInOrder(headers: Fields, order: seq<string>, m: Fields, k: string)
    requires forall j :: j in order ==> j in headers
    ensures var stored := Stored(InOrder(headers, order), m);
            && (k in order ==> k in stored && stored[k] == StoredValue(Header(k, headers[k])))
            && (k !in order ==> (k in stored <==> k in m) && (k in m ==> stored[k] == m[k]))
    decreases |order|
  {
    hide StoredValue;
    if order != [] {
      assert InOrder(headers, order)[1..] == InOrder(headers, order[1..]);
      StoredInOrder(headers, order[1..], m[order[0] := StoredValue(Header(order[0], headers[order[0]]))], k);
    }
  }

  lemma StoredResponse(headers: Fields, order: seq<string>, length: nat)
    requires Enumerates(order, headers)
    ensures Stored(ResponseHeaders(headers, order, length), map[]) == Received(headers, length)
  {
    var first := Header("Content-Length", Decimal.ToString(length));
    var stored := Stored(ResponseHeaders(headers, order, length), map[]);
    assert ResponseHeaders(headers, order, length)[1..] == InOrder(headers, order);
    assert stored == Stored(InOrder(headers, order), map["Content-Length" := StoredValue(first)]);
    hide Decimal.ToString, Stored, InOrder;
    forall k ensures k in stored <==> k in Received(headers, length)
      ensures k in stored ==> stored[k] == Received(headers, length)[k] {
      StoredInOrder(headers, order, map["Content-Length" := StoredValue(first)], k);
    }
  }

  lemma {:induction false} InOrderIsPrintable(headers: Fields, order: seq<string>)
    requires PrintableFields(headers) && forall k :: k in order ==> k in headers
    ensures AllPrintable(InOrder(headers, order))
  {
    hide Printable;
    if order != [] {
      InOrderIsPrintable(headers, order[1..]);
    }
  }

  lemma NumberIsAWord(n: nat)
    ensures IsWord(Decimal.ToString(n)) && PathOf(Decimal.ToString(n)) == Decimal.ToString(n)
    ensures '\n' !in Decimal.ToString(n)
  {
    ToStringDigits(n);
    LineOf(Decimal.ToString(n), '?', "");
  }

  lemma {:induction false} CodesDiffer(s: Status, t: Status)
    ensures Decimal.ToString(Code(s)) == Decimal.ToString(Code(t)) ==> s == t
  {
    ToStringDigits(Code(s));
    ToStringDigits(Code(t));
    hide Decimal.ToString, Value;
  }

  lemma PrintableUpdate(headers: Fields, k: string, v: string)
    requires PrintableFields(headers) && ':' !in k && '\n' !in k && '\n' !in v
    ensures PrintableFields(headers[k := v])
  {
  }

  lemma OriginIsPlain()
    ensures ':' !in ALLOW_ORIGIN && '\n' !in ALLOW_ORIGIN && '\n' !in CORS_ORIGIN
  {
  }

  lemma MethodsArePlain()
    ensures ':' !in ALLOW_METHODS && '\n' !in ALLOW_METHODS && '\n' !in CORS_METHODS
  {
  }

  lemma HeadersArePlain()
    ensures ':' !in ALLOW_HEADERS && '\n' !in ALLOW_HEADERS && '\n' !in CORS_HEADERS
  {
  }

  lemma CorsIsPrintable()
    ensures PrintableFields(CORS)
  {
    hide PrintableFields;
    OriginIsPlain();
    MethodsArePlain();
    HeadersArePlain();
    NothingToPrint();
    PrintableUpdate(map[], ALLOW_ORIGIN, CORS_ORIGIN);
    PrintableUpdate(map[ALLOW_ORIGIN := CORS_ORIGIN], ALLOW_METHODS, CORS_METHODS);
    PrintableUpdate(map[ALLOW_ORIGIN := CORS_ORIGIN, ALLOW_METHODS := CORS_METHODS], ALLOW_HEADERS, CORS_HEADERS);
  }

  lemma NothingToPrint()
    ensures PrintableFields(map[])
  {
  }

  lemma ResponseIsPrintable(own: Fields, order: seq<string>, length: nat)
    requires PrintableFields(own) && Enumerates(order, own + CORS)
    ensures AllPrintable(ResponseHeaders(own + CORS, order, length))
  {
    CorsIsPrintable();
    hide Printable, Decimal.ToString;
    forall k | k in own + CORS ensures Printable(Header(k, (own + CORS)[k])) {
      assert k in CORS || k in own;
    }
    InOrderIsPrintable(own + CORS, order);
    LengthIsPrintable(length);
  }

  lemma LengthIsPrintable(length: nat)
    ensures Printable(Header("Content-Length", Decimal.ToString(length)))
  {
    NumberIsAWord(length);
  }

  lemma ResponseLooksLikeRequest(status: Status, headers: Fields, order: seq<string>, body: string)
    requires forall k :: k in order ==> k in headers
    ensures ResponseText(status, headers, order, body)
         == RequestText("HTTP/1.1", Decimal.ToString(Code(status)), Description(status),
                        ResponseHeaders(headers, order, |body|), body)
  {
    hide Message, ResponseHeaders, Code, Description, Decimal.ToString;
    assert "HTTP/1.1 " == "HTTP/1.1" + " ";
  }

  lemma DescriptionIsOneLine(status: Status)
    ensures '\n' !in Description(status)
  {
    if Code(status) < 400 {
      GoodDescriptionIsOneLine(status);
    } else if Code(status) < 500 {
      ClientErrorIsOneLine(status);
    } else {
      ServerErrorIsOneLine(status);
    }
    hide Description;
  }

  lemma GoodDescriptionIsOneLine(status: Status)
    requires Code(status) < 400
    ensures '\n' !in Description(status)
  {
  }

  lemma ClientErrorIsOneLine(status: Status)
    requires 400 <= Code(status) < 500
    ensures '\n' !in Description(status)
  {
  }

  lemma ServerErrorIsOneLine(status: Status)
    requires 500 <= Code(status)
    ensures '\n' !in Description(status)
  {
  }

  lemma ReadResponse(r: Request, code: string, description: string, hs: seq<Header>, body: string, received: Fields,
                     inflate: string -> string)
    requires IsWord(code) && PathOf(code) == code && '\n' !in description && AllPrintable(hs)
    requires Stored(hs, map[]) == received && "Content-Length" in received
    ensures var (parsed, outcome) := Parse(r, RequestText("HTTP/1.1", code, description, hs, body), inflate);
            if StoI(received["Content-Length"]).Err? then parsed == r && outcome.Err?
            else
              && parsed.verb == "HTTP/1.1" && parsed.path == code && parsed.headers == received
              && parsed.body == (if IsCompressed(received) then inflate(body) else body)
              && (!IsMultipart(received) ==> outcome.Ok?)
  {
    assert IsWord("HTTP/1.1");
    hide Parse, RequestText, Stored, StoI, IsCompressed, IsMultipart, PathOf, CookiesOf, IsWord, ReadHeaders, Rest,
      AllPrintable;
    RequestRoundTrip.RequestRoundTrip(r, "HTTP/1.1", code, description, hs, body, inflate);
  }

  /** The printed response, read by the request parser. For every order in which the header map may
      be iterated, the status, every header with the CORS defaults among them, and the body come
      back, unless `stoi` refuses the length, and then nothing changes. */
  lemma {:induction false} ResponseRoundTrip(r: Request, status: Status, own: Fields, order: seq<string>, body: string,
                          inflate: string -> string)
    requires PrintableFields(own) && Enumerates(order, own + CORS)
    ensures var received := Received(own + CORS, |body|);
            var (parsed, outcome) := Parse(r, ResponseText(status, own + CORS, order, body), inflate);
            if StoI(received["Content-Length"]).Err? then parsed == r && outcome.Err?
            else
              && parsed.verb == "HTTP/1.1" && parsed.path == Decimal.ToString(Code(status))
              && parsed.headers == received && parsed.body == (if IsCompressed(received) then inflate(body) else body)
              && (!IsMultipart(received) ==> outcome.Ok?)
  {
    var headers, code := own + CORS, Decimal.ToString(Code(status));
    var hs := ResponseHeaders(headers, order, |body|);
    NumberIsAWord(Code(status));
    StoredResponse(headers, order, |body|);
    ResponseIsPrintable(own, order, |body|);
    ResponseLooksLikeRequest(status, headers, order, body);
    DescriptionIsOneLine(status);
    hide Parse, ResponseText, RequestText, Stored, Received, StoI, IsCompressed, IsMultipart, Decimal.ToString, Code,
      ResponseHeaders, Description, PathOf, IsWord, PrintableFields, AllPrintable, Enumerates;
    ReadResponse(r, code, Description(status), hs, body, Received(headers, |body|), inflate);
  }

  /** Without a length of its own, a response is readable exactly when its body is shorter than 2^31
      characters, and then the length that arrives is that of the body. */
  lemma {:induction false} LengthRoundTrip(own: Fields, length: nat)
    requires "Content-Length" !in own
    ensures StoI(Received(own + CORS, length)["Content-Length"])
         == if length <= INT_MAX then Ok(length) else Err(OutOfRange)
  {
    StoIReadsToString(length, "\r");
  }

  /** Every header arrives: the defaults, also in place of the handler's own, and all others. */
  lemma {:induction false} HeadersRoundTrip(own: Fields, length: nat, k: string)
    ensures var received := Received(own + CORS, length);
            && (k in CORS ==> k in received && received[k] == " " + CORS[k] + "\r")
            && (k in own && k !in CORS ==> k in received && received[k] == " " + own[k] + "\r")
            && (k in received ==> k in own || k in CORS || k == "Content-Length")
  {
  }
}
