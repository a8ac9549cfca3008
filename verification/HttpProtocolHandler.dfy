/** One connection, from the bytes read to the one close of its socket. The kernel's answers and the
    route handlers are parameters. */
module HttpProtocolHandler {
  import opened Text
  import opened Decimal
  import opened HttpRequest
  import opened HttpResponse

  // ---------------------------------------------------------------- partial writes

  /** One turn of the write loop: the wait for the socket times out or fails, or `write` returns. */
  datatype Attempt = NotReady | Wrote(count: int)

  function Taken(attempt: Attempt, offered: nat): (n: nat)
    ensures n <= offered
  {
    match attempt
    case NotReady => 0
    case Wrote(count) => if count <= 0 then 0 else if count < offered then count else offered
  }

  /** What reaches the peer of a text, when turn i of the loop comes next. */
  function Deliver(rest: string, kernel: nat -> Attempt, i: nat): string
    decreases |rest|
  {
    var n := Taken(kernel(i), |rest|);
    if n == 0 then "" else rest[..n] + Deliver(rest[n..], kernel, i + 1)
  }

  predicate Works(attempt: Attempt) {
    attempt.Wrote? && attempt.count > 0
  }

  /** The first n turns from i on all write something. */
  predicate AllWork(kernel: nat -> Attempt, i: nat, n: nat) {
    forall k: nat :: i <= k < i + n ==> Works(kernel(k))
  }

  function Total(kernel: nat -> Attempt, i: nat, n: nat): int
    decreases n
  {
    if n == 0 then 0 else (if Works(kernel(i)) then kernel(i).count else 0) + Total(kernel, i + 1, n - 1)
  }

  /** n turns from i on, none of them failing, offer room for the length. */
  predicate Enough(kernel: nat -> Attempt, i: nat, n: nat, length: int) {
    AllWork(kernel, i, n) && Total(kernel, i, n) >= length
  }

  ghost predicate CanDeliver(kernel: nat -> Attempt, i: nat, length: int) {
    exists n: nat :: Enough(kernel, i, n, length)
  }

  lemma {:induction false} DeliveredIsPrefix(rest: string, kernel: nat -> Attempt, i: nat)
    ensures Deliver(rest, kernel, i) <= rest
    decreases |rest|
  {
    var n := Taken(kernel(i), |rest|);
    if n > 0 {
      DeliveredIsPrefix(rest[n..], kernel, i + 1);
      assert rest == rest[..n] + rest[n..];
    }
  }

  /** The text arrives whole exactly when enough turns in a row do not fail. */
  lemma {:induction false} DeliveredWholeIff(rest: string, kernel: nat -> Attempt, i: nat)
    ensures Deliver(rest, kernel, i) == rest <==> CanDeliver(kernel, i, |rest|)
    decreases |rest|
  {
    if rest == "" {
      assert Enough(kernel, i, 0, |rest|);
    } else if !Works(kernel(i)) {
      forall n: nat ensures !Enough(kernel, i, n, |rest|) {
        assert AllWork(kernel, i, n) ==> n == 0;
      }
    } else {
      var k := Taken(kernel(i), |rest|);
      var more := rest[k..];
      DeliveredWholeIff(more, kernel, i + 1);
      assert rest == rest[..k] + more;
      assert Deliver(rest, kernel, i) == rest <==> Deliver(more, kernel, i + 1) == more by {
        assert (rest[..k] + Deliver(more, kernel, i + 1))[k..] == Deliver(more, kernel, i + 1);
      }
      OneTurnMore(kernel, i, |rest|);
    }
  }

  lemma OneTurnMore(kernel: nat -> Attempt, i: nat, length: nat)
    requires Works(kernel(i)) && length > 0
    ensures CanDeliver(kernel, i, length) <==> CanDeliver(kernel, i + 1, length - Taken(kernel(i), length))
  {
    var less, next := length - Taken(kernel(i), length), i + 1;
    forall n: nat | Enough(kernel, i, n, length) ensures n > 0 && Enough(kernel, next, n - 1, less) {
      TotalIsPositive(kernel, next, n - 1);
    }
    forall n: nat | Enough(kernel, next, n, less) ensures Enough(kernel, i, n + 1, length) {
    }
  }

  /** Up to the turn that fails: as much as the turns before it had room for. */
  lemma {:induction false} DeliveredUpToFailure(rest: string, kernel: nat -> Attempt, i: nat, n: nat)
    requires AllWork(kernel, i, n) && !Works(kernel(i + n))
    ensures |Deliver(rest, kernel, i)| == if Total(kernel, i, n) < |rest| then Total(kernel, i, n) else |rest|
    decreases n
  {
    TotalIsPositive(kernel, i, n);
    if n > 0 {
      assert Works(kernel(i));
      TotalIsPositive(kernel, i + 1, n - 1);
      DeliveredUpToFailure(rest[Taken(kernel(i), |rest|)..], kernel, i + 1, n - 1);
    }
  }

  lemma {:induction false} TotalIsPositive(kernel: nat -> Attempt, i: nat, n: nat)
    ensures Total(kernel, i, n) >= 0
    decreases n
  {
    if n > 0 {
      TotalIsPositive(kernel, i + 1, n - 1);
    }
  }

  // ---------------------------------------------------------------- the reply

  /** What reading the request delivers: an exception, or up to 4096 characters. */
  datatype Input = ReadFailed | Data(text: string)

  /** What the route table and the route handler make of a request. */
  datatype Handled = NoRoute | Threw | Responded(status: Status, headers: Fields, body: string)

  /** How the hash map of the server is iterated. */
  ghost predicate IsOrder(order: Fields -> seq<string>) {
    forall m: Fields :: Enumerates(order(m), m)
  }

  ghost function Listed(keys: set<string>): seq<string>
    decreases |keys|
  {
    if keys == {} then []
    else
      var k :| k in keys;
      [k] + Listed(keys - {k})
  }

  lemma FirstListed(keys: set<string>) returns (k: string)
    requires keys != {}
    ensures k in keys && Listed(keys) == [k] + Listed(keys - {k})
  {
    k := Listed(keys)[0];
  }

  lemma {:induction false} ListedOnce(keys: set<string>)
    ensures forall k :: k in Listed(keys) <==> k in keys
    ensures forall i, j :: 0 <= i < j < |Listed(keys)| ==> Listed(keys)[i] != Listed(keys)[j]
    decreases |keys|
  {
    if keys != {} {
      var k := FirstListed(keys);
      hide Listed;
      ListedOnce(keys - {k});
    }
  }

  /** There is such an order for every map. */
  lemma {:induction false} OrdersExist()
    ensures exists order: Fields -> seq<string> :: IsOrder(order)
  {
    var order := (m: Fields) => Listed(m.Keys);
    forall m: Fields ensures Enumerates(order(m), m) {
      ListedOnce(m.Keys);
    }
    assert IsOrder(order);
  }

  /** The text to send, or an exception. */
  function Reply(input: Input, route: Request -> Handled, order: Fields -> seq<string>,
                 inflate: string -> string): Option<string>
    requires IsOrder(order)
  {
    match input
    case ReadFailed => None
    case Data(text) =>
      if text == "" then Some(ResponseText(BAD_GATEWAY, CORS, order(CORS), "Not Found"))
      else
        var (request, outcome) := Parse(EMPTY, text, inflate);
        if outcome.Err? then None
        else
          match route(request)
          case Threw => None
          case NoRoute => Some(Answer(request, NOT_FOUND, map[], "Not Found", order))
          case Responded(status, headers, body) => Some(Answer(request, status, headers, body, order))
  }

  /** Something was read, and it parses. */
  predicate Parses(input: Input, inflate: string -> string) {
    input.Data? && input.text != "" && Parse(EMPTY, input.text, inflate).1.Ok?
  }

  function Announced(own: Fields, keep: bool): Fields {
    if keep then own["Connection" := "keep-alive"] else own
  }

  predicate AsksForKeepAlive(request: Request, order: Fields -> seq<string>)
    requires IsOrder(order)
  {
    WantsKeepAlive(request.headers, order(request.headers))
  }

  function AnswerHeaders(request: Request, own: Fields, order: Fields -> seq<string>): Fields
    requires IsOrder(order)
  {
    Announced(own, AsksForKeepAlive(request, order))
  }

  function Answer(request: Request, status: Status, own: Fields, body: string, order: Fields -> seq<string>): string
    requires IsOrder(order)
  {
    var headers := AnswerHeaders(request, own, order) + CORS;
    ResponseText(status, headers, order(headers), body)
  }

  // ---------------------------------------------------------------- the objects

  /** A descriptor, with what was written to it and the calls of `::close` made for it. */
  class Socket {
    var socketFd: int
    ghost var wire: string
    ghost var closed: seq<int>

    constructor (fd: int)
      ensures socketFd == fd && wire == "" && closed == []
    {
      socketFd, wire, closed := fd, "", [];
    }

    /** The descriptor that is still to be closed, if any. */
    function ToClose(): seq<int>
      reads this
    {
      if socketFd >= 0 then [socketFd] else []
    }

    /** Closing is idempotent: only an open descriptor reaches the kernel, and it is gone after that. */
    method Close()
      modifies this`socketFd, this`closed
      ensures socketFd < 0 && closed == old(closed + ToClose())
    {
      if socketFd >= 0 {
        closed := closed + [socketFd];
        socketFd := -1;
      }
    }

    method Destroy()
      modifies this`socketFd, this`closed
      ensures socketFd < 0 && closed == old(closed + ToClose())
    {
      Close();
    }

    method Write(data: string, attempt: Attempt) returns (sent: int)
      requires attempt.Wrote?
      modifies this`wire
      ensures sent == (if attempt.count < |data| then attempt.count else |data|)
      ensures wire == old(wire) + data[..Taken(attempt, |data|)]
    {
      wire := wire + data[..Taken(attempt, |data|)];
      return if attempt.count < |data| then attempt.count else |data|;
    }
  }

  class Connection {
    const socket: Socket
    var keepAlive: bool

    constructor (fd: int)
      ensures fresh(socket) && socket.socketFd == fd && socket.wire == "" && socket.closed == [] && !keepAlive
    {
      socket := new Socket(fd);
      keepAlive := false;
    }
  }

  method SendResponse(connection: Connection, response: string, kernel: nat -> Attempt)
    modifies connection.socket
    ensures connection.socket.wire == old(connection.socket.wire) + Deliver(response, kernel, 0)
    ensures connection.socket.socketFd < 0
    ensures connection.socket.closed == old(connection.socket.closed + connection.socket.ToClose())
  {
    var socket := connection.socket;
    var bytesSent, turn := 0, 0;
    assert response[0..] == response;
    while bytesSent < |response|
      invariant 0 <= bytesSent <= |response| && 0 <= turn
      invariant socket.socketFd == old(socket.socketFd) && socket.closed == old(socket.closed)
      invariant socket.wire + Deliver(response[bytesSent..], kernel, turn)
             == old(socket.wire) + Deliver(response, kernel, 0)
    {
      var rest := response[bytesSent..];
      if kernel(turn) == NotReady {
        break;
      }
      ghost var before := socket.wire;
      var sent := socket.Write(rest, kernel(turn));
      if sent <= 0 {
        break;
      }
      assert response[bytesSent + sent..] == rest[sent..];
      Associative(before, rest[..sent], Deliver(rest[sent..], kernel, turn + 1));
      bytesSent := bytesSent + sent;
      turn := turn + 1;
    }
    socket.Close();
  }

  /** The first half of `handleRequest`: the text of the reply, or an exception. */
  method MakeReply(connection: Connection, input: Input, route: Request -> Handled, order: Fields -> seq<string>,
                   inflate: string -> string) returns (reply: Option<string>)
    requires IsOrder(order)
    modifies connection`keepAlive
    ensures reply == Reply(input, route, order, inflate)
    ensures connection.keepAlive == if Parses(input, inflate)
                                    then AsksForKeepAlive(Parse(EMPTY, input.text, inflate).0, order)
                                    else old(connection.keepAlive)
  {
    hide Parse, ResponseText, WantsKeepAlive, CORS, Enumerates;
    if input.ReadFailed? {
      return None;
    }
    var response: HttpResponse;
    if input.text != "" {
      var request := new HttpRequest();
      var outcome := request.ParseHttpRequest(input.text, inflate);
      if outcome.Err? {
        return None;
      }
      var handled := route(request.State());
      connection.keepAlive := request.KeepAlive(order(request.mHeaders));
      match handled {
        case Threw => return None;
        case NoRoute =>
          response := new HttpResponse(NOT_FOUND, "text/plain", "Not Found");
        case Responded(status, headers, body) =>
          response := new HttpResponse(status, "", body);
          response.SetHeaders(headers, order(headers));
          assert response.mHeaders == headers;
      }
      if connection.keepAlive {
        response.AddHeader("Connection", "keep-alive");
      }
    } else {
      response := new HttpResponse(BAD_GATEWAY, "text/plain", "Not Found");
      assert response.mHeaders + CORS == CORS;
    }
    var text := response.ToString(order(response.mHeaders + CORS));
    return Some(text);
  }

  /** The reply is sent and the socket closed, or an exception leaves the socket as it was. */
  method HandleRequest(connection: Connection, input: Input, route: Request -> Handled, order: Fields -> seq<string>,
                       inflate: string -> string, kernel: nat -> Attempt) returns (threw: bool)
    requires IsOrder(order)
    modifies connection, connection.socket
    ensures var socket := connection.socket;
            match Reply(input, route, order, inflate)
            case None => threw && unchanged(socket)
            case Some(text) =>
              && !threw && socket.wire == old(socket.wire) + Deliver(text, kernel, 0)
              && socket.socketFd < 0 && socket.closed == old(socket.closed + socket.ToClose())
  {
    var reply := MakeReply(connection, input, route, order, inflate);
    if reply.None? {
      return true;
    }
    SendResponse(connection, reply.value, kernel);
    return false;
  }

  /** The life of a connection in the service: it is handled, closed when that throws, and destroyed
      with its last owner. Its descriptor is closed once, whichever way it went. */
  method ServeConnection(fd: int, input: Input, route: Request -> Handled, order: Fields -> seq<string>,
                         inflate: string -> string, kernel: nat -> Attempt) returns (socket: Socket)
    requires IsOrder(order)
    ensures fresh(socket)
    ensures socket.closed == if fd >= 0 then [fd] else []
    ensures socket.wire == match Reply(input, route, order, inflate)
                           case Some(text) => Deliver(text, kernel, 0)
                           case None => ""
  {
    var connection := new Connection(fd);
    socket := connection.socket;
    var threw := HandleRequest(connection, input, route, order, inflate, kernel);
    if threw {
      socket.Close();
    }
    socket.Destroy();
  }

  // ---------------------------------------------------------------- from request to reply

  /** The header map that arrives with the answer to a request. */
  function Arrives(request: Request, own: Fields, length: nat, order: Fields -> seq<string>): Fields
    requires IsOrder(order)
  {
    Received(AnswerHeaders(request, own, order) + CORS, length)
  }

  predicate SaysKeepAlive(headers: Fields) {
    "Connection" in headers && headers["Connection"] == " keep-alive\r"
  }

  /** What the answer to a request is when it is read by the same parser: the handler's status, headers
      and body, unless `stoi` refuses the length that the handler set itself. */
  ghost predicate Echoes(back: Request, r: Request, received: Fields, inflate: string -> string, status: Status,
                         answer: string)
    requires "Content-Length" in received
  {
    if StoI(received["Content-Length"]).Err? then back == r
    else
      && back.path == Decimal.ToString(Code(status)) && back.headers == received
      && back.body == if IsCompressed(received) then inflate(answer) else answer
  }

  lemma AnswerEchoes(request: Request, order: Fields -> seq<string>, inflate: string -> string, status: Status,
                     own: Fields, answer: string, r: Request)
    requires IsOrder(order) && PrintableFields(own)
    ensures var received := Arrives(request, own, |answer|, order);
            var back := Parse(r, Answer(request, status, own, answer, order), inflate).0;
            "Content-Length" in received && Echoes(back, r, received, inflate, status, answer)
  {
    AnswerIsPrintable(own);
    hide Parse, ResponseText, IsCompressed, IsMultipart, PrintableFields, CORS, Decimal.ToString, Code, StoI,
      AsksForKeepAlive, Enumerates;
    var headers := AnswerHeaders(request, own, order);
    ResponseRoundTrip(r, status, headers, order(headers + CORS), answer, inflate);
  }

  lemma SaysKeepAliveIff(own: Fields, keep: bool, length: nat)
    ensures SaysKeepAlive(Received(Announced(own, keep) + CORS, length)) <==>
              keep || ("Connection" in own && own["Connection"] == "keep-alive")
  {
    hide Decimal.ToString;
    var headers := Announced(own, keep);
    HeadersRoundTrip(headers, length, "Connection");
    if "Connection" in headers {
      var v := headers["Connection"];
      assert (" " + v + "\r")[1..|v| + 1] == v && " keep-alive\r"[1..11] == "keep-alive";
    }
  }

  lemma ReplyIs(text: string, route: Request -> Handled, order: Fields -> seq<string>, inflate: string -> string,
                status: Status, own: Fields, body: string)
    requires IsOrder(order) && text != "" && Parse(EMPTY, text, inflate).1.Ok?
    requires route(Parse(EMPTY, text, inflate).0) == Responded(status, own, body)
    ensures Reply(Data(text), route, order, inflate)
         == Some(Answer(Parse(EMPTY, text, inflate).0, status, own, body, order))
  {
    hide Parse, Answer;
  }

  /** From any request that parses, through the server and back: the reply read by the same parser is
      what the route handler responded, and it says keep-alive exactly when the request asked for it
      or the handler said so itself. */
  lemma {:induction false} KeepAliveIsEchoed(text: string, route: Request -> Handled, order: Fields -> seq<string>,
                                             inflate: string -> string, status: Status, own: Fields, answer: string,
                                             r: Request)
    requires text != "" && Parse(EMPTY, text, inflate).1.Ok? && IsOrder(order) && PrintableFields(own)
    requires route(Parse(EMPTY, text, inflate).0) == Responded(status, own, answer)
    ensures var request := Parse(EMPTY, text, inflate).0;
            var reply, received := Reply(Data(text), route, order, inflate), Arrives(request, own, |answer|, order);
            && reply.Some? && "Content-Length" in received
            && Echoes(Parse(r, reply.value, inflate).0, r, received, inflate, status, answer)
            && (SaysKeepAlive(received) <==>
                  AsksForKeepAlive(request, order) || ("Connection" in own && own["Connection"] == "keep-alive"))
  {
    var request := Parse(EMPTY, text, inflate).0;
    SaysKeepAliveIff(own, AsksForKeepAlive(request, order), |answer|);
    hide Parse, Reply, Answer, Echoes, PrintableFields, SaysKeepAlive, Received, CORS, AsksForKeepAlive;
    ReplyIs(text, route, order, inflate, status, own, answer);
    AnswerEchoes(request, order, inflate, status, own, answer, r);
  }

  lemma AnswerIsPrintable(own: Fields)
    requires PrintableFields(own)
    ensures PrintableFields(own["Connection" := "keep-alive"])
  {
    PrintableUpdate(own, "Connection", "keep-alive");
  }
}
