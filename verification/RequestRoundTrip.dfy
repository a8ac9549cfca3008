/** Printing a request and parsing it: the request line, the headers, the body, and the cookies. */
module RequestRoundTrip {
  import opened Text
  import opened Decimal
  import opened HttpRequest
  import opened MessageHead

  /** A request in the format of section 2.1 of RFC 9112. */
  function RequestText(verb: string, target: string, version: string, hs: seq<Header>, body: string): string {
    Message(verb + " " + target + " " + version, hs, body)
  }

  lemma WordsOfRequestLine(verb: string, target: string, version: string)
    requires IsWord(verb) && IsWord(target)
    ensures var line := verb + " " + target + " " + version + "\r";
            MethodOf(line) == verb && TargetOf(line) == target
  {
    var line, rest := verb + " " + target + " " + version + "\r", " " + version + "\r";
    ReadWordOf("", verb, " " + target + rest);
    ReadWordOf(" ", target, rest);
    assert line == "" + verb + (" " + target + rest);
  }

  lemma WordHasNoLineFeed(w: string)
    requires IsWord(w)
    ensures '\n' !in w
  {
  }

  /** What a parse must deliver for a printed request: the method, the path without its query, the
      last-wins header map, the body exactly when a Content-Length is there, and no token. */
  predicate Recovered(r: Request, verb: string, target: string, hs: seq<Header>, body: string,
                      inflate: string -> string)
  {
    var headers := Stored(hs, map[]);
    && r.verb == verb
    && r.path == PathOf(target)
    && r.headers == headers
    && r.body == (if "Content-Length" !in headers then "" else if IsCompressed(headers) then inflate(body) else body)
    && r.cookies == CookiesOf(headers)
    && r.authToken == ""
  }

  predicate SameForm(r: Request, parsed: Request) {
    parsed.formFields == r.formFields && parsed.fileUploads == r.fileUploads
  }

  /** The request round trip: parsing either recovers the printed request, without an exception and
      without touching the form unless it is one, or it throws because the Content-Length is not an
      int, and then the object is as it was. */
  lemma {:induction false} RequestRoundTrip(r: Request, verb: string, target: string, version: string,
                                            hs: seq<Header>, body: string, inflate: string -> string)
    requires IsWord(verb) && IsWord(target) && '\n' !in version && AllPrintable(hs)
    ensures var headers := Stored(hs, map[]);
            var (parsed, outcome) := Parse(r, RequestText(verb, target, version, hs, body), inflate);
            if "Content-Length" in headers && StoI(headers["Content-Length"]).Err?
            then parsed == r && outcome == Err(StoI(headers["Content-Length"]).error)
            else Recovered(parsed, verb, target, hs, body, inflate)
                 && (!IsMultipart(headers) ==> outcome.Ok? && SameForm(r, parsed))
  {
    var start := verb + " " + target + " " + version;
    WordHasNoLineFeed(verb);
    WordHasNoLineFeed(target);
    PrintedMessage(start, hs, body);
    WordsOfRequestLine(verb, target, version);
    PrintedBearerTokenIsLost(hs);
    hide Message, Line, Rest, ReadHeaders, FoundEnd, HeadEnd, BodyText, MethodOf, TargetOf, ReadForm, IsCompressed,
      CookiesOf, ReadToken, PathOf, StoI, Stored, HeaderLines, Parse, IsMultipart;
    PlainParse(r, RequestText(verb, target, version, hs, body), inflate);
    ParseByParts(r, RequestText(verb, target, version, hs, body), inflate);
    assert start + "\r" == verb + " " + target + " " + version + "\r";
  }

  lemma HeadersOfRequest(verb: string, target: string, version: string, hs: seq<Header>, body: string)
    requires IsWord(verb) && IsWord(target) && '\n' !in version && AllPrintable(hs)
    ensures ReadHeaders(Rest(RequestText(verb, target, version, hs, body), '\n'), map[]) == Stored(hs, map[])
  {
    WordHasNoLineFeed(verb);
    WordHasNoLineFeed(target);
    PrintedMessage(verb + " " + target + " " + version, hs, body);
  }

  /** Without a form, only the length can make the parser throw. */
  lemma PlainParse(r: Request, text: string, inflate: string -> string)
    ensures var headers := ReadHeaders(Rest(text, '\n'), map[]);
            ("Content-Length" !in headers || StoI(headers["Content-Length"]).Ok?) && !IsMultipart(headers) ==>
              Parse(r, text, inflate).1.Ok?
  {
    hide Line, Rest, ReadHeaders, BodyText, MethodOf, TargetOf, IsCompressed, CookiesOf, ReadToken, PathOf, StoI,
      IsMultipart;
  }

  lemma FormKeepsTheRest(r: Request)
    ensures var f := ReadForm(r).0; f == r.(formFields := f.formFields, fileUploads := f.fileUploads)
    ensures !IsMultipart(r.headers) ==> ReadForm(r) == (r, Ok(()))
  {
  }

  lemma ParseByParts(r: Request, text: string, inflate: string -> string)
    ensures var headers := ReadHeaders(Rest(text, '\n'), map[]);
            var first := Line(text, '\n');
            var (parsed, outcome) := Parse(r, text, inflate);
            if "Content-Length" in headers && StoI(headers["Content-Length"]).Err?
            then parsed == r && outcome == Err(StoI(headers["Content-Length"]).error)
            else
              && parsed.verb == MethodOf(first) && parsed.path == PathOf(TargetOf(first))
              && parsed.headers == headers && parsed.cookies == CookiesOf(headers)
              && parsed.authToken == ReadToken(headers)
              && (!IsMultipart(headers) ==> SameForm(r, parsed))
              && parsed.body == if "Content-Length" !in headers then ""
                                else if IsCompressed(headers) then inflate(BodyText(text)) else BodyText(text)
  {
    hide Line, Rest, ReadHeaders, BodyText, MethodOf, TargetOf, ReadForm, IsCompressed, CookiesOf, ReadToken, PathOf,
      StoI, IsMultipart;
    var headers, first := ReadHeaders(Rest(text, '\n'), map[]), Line(text, '\n');
    var body := ReadBody(text, headers, inflate);
    if body.Ok? {
      FormKeepsTheRest(r.(verb := MethodOf(first), path := PathOf(TargetOf(first)), headers := headers,
                          body := body.value, authToken := ReadToken(headers), cookies := CookiesOf(headers)));
    }
  }

  lemma {:induction false} PathHasNoQuery(path: string, query: string)
    requires '?' !in path
    ensures PathOf(path + "?" + query) == path && PathOf(path) == path
  {
    LineOf(path, '?', query);
    assert path + "?" + query == path + ['?'] + query;
  }

  // ---------------------------------------------------------------- cookies

  datatype Cookie = Cookie(name: string, value: string)

  /** cookie-pair *( ";" SP cookie-pair ), section 4.2.1 of RFC 6265 */
  function CookieString(cs: seq<Cookie>): string {
    if cs == [] then ""
    else if |cs| == 1 then cs[0].name + "=" + cs[0].value
    else cs[0].name + "=" + cs[0].value + "; " + CookieString(cs[1..])
  }

  predicate Servable(c: Cookie) {
    && '=' !in c.name && ';' !in c.name && ';' !in c.value
    && Tight(c.name, " \t", " \t") && Tight(c.value, " \t", " \t\r")
  }

  function LastWins(cs: seq<Cookie>, m: Fields): Fields {
    if cs == [] then m else LastWins(cs[1..], m[cs[0].name := cs[0].value])
  }

  lemma CookiePair(c: Cookie, tail: string)
    requires Servable(c) && (tail == "" || tail == "\r")
    ensures var pair := " " + c.name + "=" + c.value + tail;
            '=' in pair && CookieName(pair) == c.name && CookieValue(pair) == c.value
  {
    var pair := " " + c.name + "=" + c.value + tail;
    assert pair == (" " + c.name) + ['='] + (c.value + tail);
    LineOf(" " + c.name, '=', c.value + tail);
    TrimLeftOf(" ", c.name, " \t");
    TrimRightOf(c.name, "", " \t");
    assert c.name + "" == c.name && "" + (c.value + tail) == c.value + tail;
    ValueTrims(c.value, tail);
  }

  lemma ValueTrims(value: string, tail: string)
    requires Tight(value, " \t", " \t\r") && (tail == "" || tail == "\r")
    ensures TrimRight(TrimLeft(value + tail, " \t"), " \t\r") == value
  {
    assert "" + (value + tail) == value + tail;
    TrimLeftOf("", value + tail, " \t");
    TrimRightOf(value, tail, " \t\r");
  }

  lemma NextCookie(c: Cookie, rest: string, m: Fields)
    requires Servable(c)
    ensures ReadCookies(" " + c.name + "=" + c.value + ";" + rest, m) == ReadCookies(rest, m[c.name := c.value])
  {
    var pair := " " + c.name + "=" + c.value + "";
    assert " " + c.name + "=" + c.value + ";" + rest == pair + [';'] + rest;
    LineOf(pair, ';', rest);
    CookiePair(c, "");
    hide CookieName, CookieValue, Line, Rest;
  }

  lemma OnlyCookie(c: Cookie, m: Fields)
    requires Servable(c)
    ensures ReadCookies(" " + c.name + "=" + c.value + "\r", m) == m[c.name := c.value]
  {
    var pair := " " + c.name + "=" + c.value + "\r";
    LineOf(pair, ';', "");
    CookiePair(c, "\r");
    hide CookieName, CookieValue, Line, Rest;
  }

  lemma PairBeforeMore(name: string, value: string, more: string)
    ensures " " + (name + "=" + value + "; " + more) + "\r" == " " + name + "=" + value + ";" + (" " + more + "\r")
  {
  }

  lemma LastPair(name: string, value: string)
    ensures " " + (name + "=" + value) + "\r" == " " + name + "=" + value + "\r"
  {
  }

  lemma {:induction false} ReadPrintedCookies(cs: seq<Cookie>, m: Fields)
    requires forall i :: 0 <= i < |cs| ==> Servable(cs[i])
    ensures ReadCookies(" " + CookieString(cs) + "\r", m) == LastWins(cs, m)
  {
    hide ReadCookies, Servable;
    if cs == [] {
      NoCookie(m);
      assert " " + CookieString(cs) + "\r" == " \r";
    } else {
      var c, n := cs[0], m[cs[0].name := cs[0].value];
      if |cs| == 1 {
        LastPair(c.name, c.value);
        OnlyCookie(c, m);
        assert cs[1..] == [];
      } else {
        PairBeforeMore(c.name, c.value, CookieString(cs[1..]));
        NextCookie(c, " " + CookieString(cs[1..]) + "\r", m);
        ReadPrintedCookies(cs[1..], n);
      }
    }
  }

  lemma NoCookie(m: Fields)
    ensures ReadCookies(" \r", m) == m
  {
    LineOf(" \r", ';', "");
  }

  predicate LastCookie(cs: seq<Cookie>, i: nat) {
    i < |cs| && forall j :: i < j < |cs| ==> cs[j].name != cs[i].name
  }

  predicate CookieIn(c: Cookie, m: Fields) {
    c.name in m && m[c.name] == c.value
  }

  lemma {:induction false} OtherCookies(cs: seq<Cookie>, m: Fields, k: string)
    requires forall i :: 0 <= i < |cs| ==> cs[i].name != k
    ensures k in LastWins(cs, m) <==> k in m
    ensures k in m ==> LastWins(cs, m)[k] == m[k]
  {
    if cs != [] {
      OtherCookies(cs[1..], m[cs[0].name := cs[0].value], k);
    }
  }

  /** The last cookie of each name is the one in the map, and names of no cookie keep what they had. */
  lemma {:induction false} CookiesAreLastWins(cs: seq<Cookie>, m: Fields)
    ensures forall i: nat :: LastCookie(cs, i) ==> CookieIn(cs[i], LastWins(cs, m))
    ensures forall k :: (forall i :: 0 <= i < |cs| ==> cs[i].name != k) ==> (k in LastWins(cs, m) <==> k in m)
  {
    forall k | forall i :: 0 <= i < |cs| ==> cs[i].name != k ensures k in LastWins(cs, m) <==> k in m {
      OtherCookies(cs, m, k);
    }
    if cs != [] {
      var n := m[cs[0].name := cs[0].value];
      CookiesAreLastWins(cs[1..], n);
      forall i: nat | LastCookie(cs, i) ensures CookieIn(cs[i], LastWins(cs, m)) {
        if i > 0 {
          assert LastCookie(cs[1..], i - 1);
          assert CookieIn(cs[1..][i - 1], LastWins(cs[1..], n));
        } else {
          OtherCookies(cs[1..], n, cs[0].name);
        }
      }
    }
  }

  lemma StoredCookies(hs: seq<Header>, i: nat, cs: seq<Cookie>)
    requires LastOf(hs, i) && hs[i] == Header("Cookie", CookieString(cs))
    requires forall k :: 0 <= k < |cs| ==> Servable(cs[k])
    ensures CookiesOf(Stored(hs, map[])) == LastWins(cs, map[])
  {
    StoredIsLastWins(hs, map[]);
    ReadPrintedCookies(cs, map[]);
  }

  /** The cookie round trip: parsing the text of a request whose last Cookie header carries a printed
      cookie list leaves the last-wins map of that list, unless the length is refused. */
  lemma {:induction false} CookieRoundTrip(r: Request, verb: string, target: string, version: string,
                                           hs: seq<Header>, i: nat, cs: seq<Cookie>, body: string,
                                           inflate: string -> string)
    requires IsWord(verb) && IsWord(target) && '\n' !in version && AllPrintable(hs)
    requires LastOf(hs, i) && hs[i] == Header("Cookie", CookieString(cs))
    requires forall k :: 0 <= k < |cs| ==> Servable(cs[k])
    ensures var headers := Stored(hs, map[]);
            var parsed := Parse(r, RequestText(verb, target, version, hs, body), inflate).0;
            if "Content-Length" in headers && StoI(headers["Content-Length"]).Err? then parsed == r
            else parsed.cookies == LastWins(cs, map[])
  {
    StoredCookies(hs, i, cs);
    hide Parse, RequestText, Stored, StoI, CookiesOf, LastWins, PathOf, IsCompressed, IsMultipart, Servable, IsWord,
      LastOf, AllPrintable, CookieString;
    RequestRoundTrip(r, verb, target, version, hs, body, inflate);
  }

  // ---------------------------------------------------------------- keep-alive and the bearer token

  lemma OnlyMatch(headers: Fields, key: string, name: string, order: seq<string>)
    requires Enumerates(order, headers) && name in headers && SameName(name, key)
    requires forall k :: k in order && SameName(k, key) ==> k == name
    ensures Lookup(headers, key, order) == headers[name]
  {
    hide ToLower;
    LookupFinds(headers, key, order);
    assert name in order;
  }

  lemma LookupOfPrinted(hs: seq<Header>, i: nat, order: seq<string>)
    requires LastOf(hs, i) && SameName(hs[i].name, "Connection")
    requires forall j :: 0 <= j < |hs| && SameName(hs[j].name, "Connection") ==> hs[j].name == hs[i].name
    requires Enumerates(order, Stored(hs, map[]))
    ensures Lookup(Stored(hs, map[]), "Connection", order) == StoredValue(hs[i])
  {
    hide ToLower, SameName;
    var headers, name := Stored(hs, map[]), hs[i].name;
    StoredIsLastWins(hs, map[]);
    forall k | k in order && SameName(k, "Connection") ensures k == name {
      NotAName(hs, k);
      assert k in headers;
    }
    OnlyMatch(headers, "Connection", name, order);
  }

  lemma StoredValueTrims(h: Header, value: string, left: string, right: string)
    requires h.value == left + value + right && Tight(value, " \t\n\r", " \t\n\r")
    requires AllIn(left, " \t\n\r") && AllIn(right, " \t\n\r")
    ensures Trim(StoredValue(h)) == value
  {
    assert StoredValue(h) == (" " + left) + value + (right + "\r");
    TrimUndoesPadding(" " + left, value, right + "\r");
  }

  /** One Connection header, in any case and padded with blanks, decides, for every iteration order. */
  lemma {:induction false} KeepAliveRoundTrip(hs: seq<Header>, i: nat, value: string, left: string, right: string,
                                              order: seq<string>)
    requires LastOf(hs, i) && SameName(hs[i].name, "Connection")
    requires forall j :: 0 <= j < |hs| && SameName(hs[j].name, "Connection") ==> hs[j].name == hs[i].name
    requires hs[i].value == left + value + right && Tight(value, " \t\n\r", " \t\n\r")
    requires AllIn(left, " \t\n\r") && AllIn(right, " \t\n\r")
    requires Enumerates(order, Stored(hs, map[]))
    ensures WantsKeepAlive(Stored(hs, map[]), order) <==> value == "keep-alive"
  {
    LookupOfPrinted(hs, i, order);
    StoredValueTrims(hs[i], value, left, right);
    hide ToLower, SameName, Trim, Lookup, Stored, AllIn, Tight;
  }

  /** A bearer token in a printed header is never found: the stored value starts with the space. */
  lemma {:induction false} PrintedBearerTokenIsLost(hs: seq<Header>)
    ensures ReadToken(Stored(hs, map[])) == ""
  {
    StoredStartsWithSpace(hs, map[]);
    var headers := Stored(hs, map[]);
    if "Authorization" in headers {
      assert headers["Authorization"][0] == ' ';
      assert IndexOf(headers["Authorization"], ' ') == 0;
    }
  }

  /** A request with a bearer token that the parser does not find. */
  lemma {:induction false} BearerTokenNotFound()
    ensures var hs := [Header("Authorization", "Bearer t")];
            Stored(hs, map[]) == map["Authorization" := " Bearer t\r"] && ReadToken(Stored(hs, map[])) == ""
  {
    var hs := [Header("Authorization", "Bearer t")];
    PrintedBearerTokenIsLost(hs);
    hide ReadToken;
    assert hs[1..] == [];
    assert " " + "Bearer t" + "\r" == " Bearer t\r";
  }

  /** Names are looked up as they are written, except by the lookup for Connection: a length in lower
      case loses the body. */
  lemma {:induction false} LowerCaseLengthLosesTheBody(r: Request, inflate: string -> string)
    ensures var hs := [Header("content-length", "1")];
            Parse(r, RequestText("POST", "/", "HTTP/1.1", hs, "x"), inflate).0.body == ""
  {
    var hs := [Header("content-length", "1")];
    assert IsWord("POST") && IsWord("/");
    LowerCaseIsAnotherName(hs);
    hide Parse, RequestText, Stored, StoI, PathOf, CookiesOf, IsMultipart, IsWord, IsCompressed;
    RequestRoundTrip(r, "POST", "/", "HTTP/1.1", hs, "x", inflate);
  }

  lemma LowerCaseIsAnotherName(hs: seq<Header>)
    requires hs == [Header("content-length", "1")]
    ensures AllPrintable(hs) && "Content-Length" !in Stored(hs, map[])
  {
    assert hs[1..] == [];
    assert "content-length"[0] != "Content-Length"[0];
  }

  lemma {:induction false} StoredStartsWithSpace(hs: seq<Header>, m: Fields)
    requires forall k :: k in m ==> m[k] != "" && m[k][0] == ' '
    ensures forall k :: k in Stored(hs, m) ==> Stored(hs, m)[k] != "" && Stored(hs, m)[k][0] == ' '
  {
    if hs != [] {
      StoredStartsWithSpace(hs[1..], m[hs[0].name := StoredValue(hs[0])]);
    }
  }

  /** The token is found exactly when the value starts with the scheme, without a space before it. */
  lemma {:induction false} BearerTokenIff(headers: Fields, token: string)
    requires "Authorization" in headers && token != ""
    ensures ReadToken(headers) == token <==> headers["Authorization"] == "Bearer " + token
  {
    var value := headers["Authorization"];
    if value == "Bearer " + token {
      assert value == "Bearer" + [' '] + token;
      LineOf("Bearer", ' ', token);
      assert value[6] == ' ';
    }
    if ReadToken(headers) == token {
      var i := IndexOf(value, ' ');
      assert value == value[..i] + [' '] + value[i + 1..];
    }
  }
}
