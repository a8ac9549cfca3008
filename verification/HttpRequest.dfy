/** The request parser: request line, header lines, body, cookies, and the multipart form. */
module HttpRequest {
  import opened Text
  import opened Decimal

  type Fields = map<string, string>

  const CRLF: string := "\r\n"
  const BLANK_LINE: string := "\r\n\r\n"

  /** The members of the class, as a value. */
  datatype Request = Request(
    verb: string, path: string, headers: Fields, body: string, authToken: string,
    cookies: Fields, formFields: Fields, fileUploads: Fields)

  const EMPTY: Request := Request("", "", map[], "", "", map[], map[], map[])

  // ---------------------------------------------------------------- head and body

  function HeaderName(line: string): string {
    Line(line, ':')
  }

  function HeaderValue(line: string): string {
    Line(Rest(line, ':'), '\n')
  }

  /** The header loop: it ends at a line that is a lone carriage return, or with the stream. */
  function ReadHeaders(rest: string, headers: Fields): Fields
    decreases |rest|
  {
    if rest == "" then headers
    else
      RestIsShorter(rest, '\n');
      var line := Line(rest, '\n');
      if line == "\r" then headers
      else ReadHeaders(Rest(rest, '\n'), headers[HeaderName(line) := HeaderValue(line)])
  }

  function MethodOf(line: string): string {
    ReadWord(line).0
  }

  function TargetOf(line: string): string {
    ReadWord(ReadWord(line).1).0
  }

  /** The target without its query string. */
  function PathOf(target: string): string {
    Line(target, '?')
  }

  predicate IsCompressed(headers: Fields) {
    && "Content-Encoding" in headers
    && (Find(headers["Content-Encoding"], "gzip", 0).Some? || Find(headers["Content-Encoding"], "deflate", 0).Some?)
  }

  function BodyText(request: string): string {
    FindIsFirst(request, BLANK_LINE, 0);
    match Find(request, BLANK_LINE, 0)
    case Some(p) => request[p + 4..]
    case None => ""
  }

  /** The body is read only when a Content-Length is there, and its value matters only in that
      `stoi` may throw. The decompressor is a parameter. */
  function ReadBody(request: string, headers: Fields, inflate: string -> string): Result<string> {
    if "Content-Length" !in headers then Ok("")
    else
      match StoI(headers["Content-Length"])
      case Err(e) => Err(e)
      case Ok(_) =>
        var body := BodyText(request);
        Ok(if IsCompressed(headers) then inflate(body) else body)
  }

  function ReadToken(headers: Fields): string {
    if "Authorization" !in headers then ""
    else
      var value := headers["Authorization"];
      if ' ' in value && Line(value, ' ') == "Bearer" then Rest(value, ' ') else ""
  }

  // ---------------------------------------------------------------- cookies

  function CookieName(pair: string): string {
    TrimRight(TrimLeft(Line(pair, '='), " \t"), " \t")
  }

  function CookieValue(pair: string): string {
    TrimRight(TrimLeft(Rest(pair, '='), " \t"), " \t\r")
  }

  function ReadCookies(rest: string, cookies: Fields): Fields
    decreases |rest|
  {
    if rest == "" then cookies
    else
      RestIsShorter(rest, ';');
      var pair := Line(rest, ';');
      ReadCookies(Rest(rest, ';'), if '=' in pair then cookies[CookieName(pair) := CookieValue(pair)] else cookies)
  }

  function CookiesOf(headers: Fields): Fields {
    if "Cookie" in headers then ReadCookies(headers["Cookie"], map[]) else map[]
  }

  // ---------------------------------------------------------------- multipart

  /** `s.substr(pos, count)` with pos inside the text; a negative count has wrapped around and
      reaches to the end. */
  function Substr(s: string, pos: nat, count: int): string
    requires pos <= |s|
  {
    if 0 <= count && pos + count <= |s| then s[pos..pos + count] else s[pos..]
  }

  /** `s.substr(0, found)`, the whole text for `npos`. */
  function UpTo(s: string, found: Option<nat>): string {
    match found
    case Some(i) => if i <= |s| then s[..i] else s
    case None => s
  }

  /** Where the part that starts after the boundary at p ends: at the next boundary, or with the body. */
  function NextBoundary(body: string, boundary: string, p: nat): (next: nat)
    requires p + |boundary| <= |body|
    ensures p + |boundary| <= next <= |body|
  {
    FindIsFirst(body, boundary, p + |boundary|);
    match Find(body, boundary, p + |boundary|)
    case Some(q) => q
    case None => |body|
  }

  /** The parts between boundaries, each without the two characters before the next one. */
  function SplitParts(body: string, boundary: string, pos: nat): seq<string>
    requires boundary != ""
    decreases |body| - pos
  {
    FindIsFirst(body, boundary, pos);
    match Find(body, boundary, pos)
    case None => []
    case Some(p) =>
      var next := NextBoundary(body, boundary, p);
      [Substr(body, p + |boundary|, next - p - |boundary| - 2)] + SplitParts(body, boundary, next)
  }

  datatype Entry = Field(name: string, value: string) | File(name: string, fileName: string, content: string)

  function PartHead(part: string): string {
    UpTo(part, Find(part, BLANK_LINE, 0))
  }

  /** The text after the blank line, cut at its first line end. */
  function PartBody(part: string): Result<string> {
    var at := Offset(Find(part, BLANK_LINE, 0), 4);
    if at > |part| then Err(OutOfRange)
    else Ok(UpTo(part[at..], Find(part[at..], CRLF, 0)))
  }

  function Quoted(line: string, at: nat): string
    requires at <= |line|
  {
    UpTo(line[at..], Find(line[at..], "\"", 0))
  }

  function ReadEntry(line: string, content: string): Result<Entry> {
    var at := Offset(Find(line, "name=\"", 0), 6);
    if at > |line| then Err(OutOfRange)
    else
      FindIsFirst(line, "filename=\"", 0);
      match Find(line, "filename=\"", 0)
      case Some(f) => Ok(File(Quoted(line, at), Quoted(line, f + 10), content))
      case None => Ok(Field(Quoted(line, at), content))
  }

  /** What one part contributes. Only its first header line is looked at. */
  function ReadPart(part: string): Result<Entry> {
    match PartBody(part)
    case Err(e) => Err(e)
    case Ok(content) => ReadEntry(Line(PartHead(part), '\r'), content)
  }

  /** The fields and files of the parts, later ones replacing earlier ones of the same name; the
      loop stops at the first part that throws. */
  function ReadParts(parts: seq<string>, fields: Fields, files: Fields): (Fields, Fields, Result<()>) {
    if parts == [] then (fields, files, Ok(()))
    else
      match ReadPart(parts[0])
      case Err(e) => (fields, files, Err(e))
      case Ok(Field(name, value)) => ReadParts(parts[1..], fields[name := value], files)
      case Ok(File(_, fileName, content)) => ReadParts(parts[1..], fields, files[fileName := content])
  }

  predicate IsMultipart(headers: Fields) {
    "Content-Type" in headers && Find(headers["Content-Type"], "multipart/form-data", 0).Some?
  }

  lemma MultipartIsLong(headers: Fields)
    requires IsMultipart(headers)
    ensures |headers["Content-Type"]| >= 19
  {
    FindIsFirst(headers["Content-Type"], "multipart/form-data", 0);
  }

  function Boundary(contentType: string): string
    requires |contentType| >= 19
  {
    FindIsFirst(contentType, "boundary=", 0);
    "--" + contentType[Offset(Find(contentType, "boundary=", 0), 9)..]
  }

  function ReadForm(r: Request): (Request, Result<()>) {
    if !IsMultipart(r.headers) then (r, Ok(()))
    else
      MultipartIsLong(r.headers);
      var parts := SplitParts(r.body, Boundary(r.headers["Content-Type"]), 0);
      var (fields, files, outcome) := ReadParts(parts, map[], r.fileUploads);
      if outcome.Ok? then (r.(formFields := fields, fileUploads := files), outcome)
      else (r.(fileUploads := files), outcome)
  }

  // ---------------------------------------------------------------- the whole parse

  /** The new members and the exception, if any. A `stoi` that throws leaves every member as it was;
      a malformed part throws after the members of the head and the body are set. */
  function Parse(r: Request, request: string, inflate: string -> string): (Request, Result<()>) {
    var first, rest := Line(request, '\n'), Rest(request, '\n');
    var headers := ReadHeaders(rest, map[]);
    match ReadBody(request, headers, inflate)
    case Err(e) => (r, Err(e))
    case Ok(body) =>
      ReadForm(r.(verb := MethodOf(first), path := PathOf(TargetOf(first)), headers := headers, body := body,
                  authToken := ReadToken(headers), cookies := CookiesOf(headers)))
  }

  // ---------------------------------------------------------------- header lookup

  /** An order in which the hash map may be iterated: every key, once. */
  ghost predicate Enumerates(order: seq<string>, m: Fields) {
    && (forall k :: k in order <==> k in m)
    && (forall i, j :: 0 <= i < j < |order| ==> order[i] != order[j])
  }

  predicate SameName(a: string, b: string) {
    ToLower(a) == ToLower(b)
  }

  lemma {:induction false} LoweredAt(s: string, i: nat)
    requires i < |s|
    ensures ToLower(s)[i] == LowerChar(s[i])
  {
    if i > 0 {
      LoweredAt(s[1..], i - 1);
    }
  }

  /** The same character, or the two cases of one ASCII letter. */
  predicate SameLetter(c: char, d: char) {
    || c == d
    || ('A' <= c <= 'Z' && d as int - c as int == 'a' as int - 'A' as int)
    || ('A' <= d <= 'Z' && c as int - d as int == 'a' as int - 'A' as int)
  }

  lemma SameLetterIff(c: char, d: char)
    ensures SameLetter(c, d) <==> LowerChar(c) == LowerChar(d)
  {
  }

  /** Header names match when they differ in the case of ASCII letters only. */
  lemma {:induction false} SameNameIff(a: string, b: string)
    ensures SameName(a, b) <==> |a| == |b| && forall i :: 0 <= i < |a| ==> SameLetter(a[i], b[i])
  {
    hide LowerChar, SameLetter;
    forall i | 0 <= i < |a| && |a| == |b| ensures SameLetter(a[i], b[i]) <==> LowerChar(a[i]) == LowerChar(b[i]) {
      SameLetterIff(a[i], b[i]);
    }
    forall i | 0 <= i < |a| ensures ToLower(a)[i] == LowerChar(a[i]) {
      LoweredAt(a, i);
    }
    forall i | 0 <= i < |b| ensures ToLower(b)[i] == LowerChar(b[i]) {
      LoweredAt(b, i);
    }
  }

  /** The value of the first header, in iteration order, whose name matches without regard to case. */
  function Lookup(headers: Fields, key: string, order: seq<string>): string
    requires forall k :: k in order ==> k in headers
  {
    if order == [] then ""
    else if SameName(order[0], key) then headers[order[0]]
    else Lookup(headers, key, order[1..])
  }

  predicate WantsKeepAlive(headers: Fields, order: seq<string>)
    requires forall k :: k in order ==> k in headers
  {
    var value := Lookup(headers, "Connection", order);
    value != "" && Trim(value) == "keep-alive"
  }

  lemma {:induction false} LookupFinds(headers: Fields, key: string, order: seq<string>)
    requires forall k :: k in order ==> k in headers
    ensures (exists k :: k in order && SameName(k, key) && Lookup(headers, key, order) == headers[k])
            || ((forall k :: k in order ==> !SameName(k, key)) && Lookup(headers, key, order) == "")
  {
    if order != [] && !SameName(order[0], key) {
      LookupFinds(headers, key, order[1..]);
      assert forall k :: k in order ==> k == order[0] || k in order[1..];
      assert forall k :: k in order[1..] ==> k in order;
    } else if order != [] {
      assert order[0] in order;
    }
  }

  /** All headers that match the name, whatever their case, carry the same value. */
  predicate Unambiguous(headers: Fields, key: string) {
    forall j, k :: j in headers && k in headers && SameName(j, key) && SameName(k, key) ==> headers[j] == headers[k]
  }

  /** The lookup does not depend on the iteration order of the hash map exactly when the matching
      headers agree. */
  lemma {:induction false} LookupIsOrderFreeIffUnambiguous(headers: Fields, key: string, some: seq<string>)
    requires Enumerates(some, headers)
    ensures Unambiguous(headers, key) <==>
              forall order :: Enumerates(order, headers) ==> Lookup(headers, key, order) == Lookup(headers, key, some)
  {
    if Unambiguous(headers, key) {
      forall order | Enumerates(order, headers) ensures Lookup(headers, key, order) == Lookup(headers, key, some) {
        LookupFinds(headers, key, order);
        LookupFinds(headers, key, some);
      }
    } else {
      var j, k :| j in headers && k in headers && SameName(j, key) && SameName(k, key) && headers[j] != headers[k];
      var first := MovedToFront(some, headers, j);
      var second := MovedToFront(some, headers, k);
      assert Lookup(headers, key, first) != Lookup(headers, key, second);
    }
  }

  /** Swapping k with the first key gives another order. */
  lemma MovedToFront(order: seq<string>, headers: Fields, k: string) returns (r: seq<string>)
    requires Enumerates(order, headers) && k in headers
    ensures Enumerates(r, headers) && r != [] && r[0] == k
  {
    assert k in order;
    var i :| 0 <= i < |order| && order[i] == k;
    r := order[0 := k][i := order[0]];
    forall x ensures x in r <==> x in order {
      if x in order {
        var n :| 0 <= n < |order| && order[n] == x;
        assert r[if n == 0 then i else if n == i then 0 else n] == x;
      }
    }
  }

  /** Two headers that differ in case: the answer is the one that the hash map happens to list first. */
  lemma {:induction false} LookupDependsOnTheOrder()
    ensures var headers := map["A" := "1", "a" := "2"];
            && Enumerates(["A", "a"], headers) && Lookup(headers, "a", ["A", "a"]) == "1"
            && Enumerates(["a", "A"], headers) && Lookup(headers, "a", ["a", "A"]) == "2"
  {
    assert ToLower("A") == ToLower("a") by {
      assert "A"[1..] == "" && "a"[1..] == "";
    }
  }

  // ---------------------------------------------------------------- the class

  class HttpRequest {
    var mMethod: string
    var mPath: string
    var mHeaders: Fields
    var mBody: string
    var mAuthToken: string
    var mCookies: Fields
    var mFormFields: Fields
    var mFileUploads: Fields

    function State(): Request
      reads this
    {
      Request(mMethod, mPath, mHeaders, mBody, mAuthToken, mCookies, mFormFields, mFileUploads)
    }

    constructor ()
      ensures State() == EMPTY == Request("", "", map[], "", "", map[], map[], map[])
    {
      mMethod, mPath, mHeaders, mBody := "", "", map[], "";
      mAuthToken, mCookies, mFormFields, mFileUploads := "", map[], map[], map[];
    }

    method ParseHttpRequest(request: string, inflate: string -> string) returns (outcome: Result<()>)
      modifies this
      ensures (State(), outcome) == old(Parse(State(), request, inflate))
    {
      var line, iss := Line(request, '\n'), Rest(request, '\n');
      var (verb, rest) := ReadWord(line);
      var (target, _) := ReadWord(rest);
      var headers := CollectHeaders(iss);
      var path := PathOf(target);
      var body := ExtractBody(request, headers, inflate);
      if body.Err? {
        return Err(body.error);
      }
      var cookies := ParseCookies(headers);
      mMethod, mPath, mHeaders, mBody := verb, path, headers, body.value;
      mAuthToken, mCookies := ReadToken(headers), cookies;
      outcome := HandleMultipartFormData();
    }

    method CollectHeaders(rest: string) returns (headers: Fields)
      ensures headers == ReadHeaders(rest, map[])
    {
      var iss := rest;
      headers := map[];
      while iss != ""
        invariant ReadHeaders(iss, headers) == ReadHeaders(rest, map[])
        decreases |iss|
      {
        RestIsShorter(iss, '\n');
        var line := Line(iss, '\n');
        iss := Rest(iss, '\n');
        if line == "\r" {
          return;
        }
        headers := headers[HeaderName(line) := HeaderValue(line)];
      }
    }

    method ExtractBody(request: string, headers: Fields, inflate: string -> string) returns (body: Result<string>)
      ensures body == ReadBody(request, headers, inflate)
    {
      var text := "";
      if "Content-Length" in headers {
        var contentLength := StoI(headers["Content-Length"]);
        if contentLength.Err? {
          return Err(contentLength.error);
        }
        FindIsFirst(request, BLANK_LINE, 0);
        var bodyStartPos := Find(request, BLANK_LINE, 0);
        if bodyStartPos.Some? {
          text := request[bodyStartPos.value + 4..];
        }
        if IsCompressed(headers) {
          text := inflate(text);
        }
      }
      return Ok(text);
    }

    method ParseCookies(headers: Fields) returns (cookies: Fields)
      ensures cookies == CookiesOf(headers)
    {
      cookies := map[];
      if "Cookie" in headers {
        var cookieIss := headers["Cookie"];
        while cookieIss != ""
          invariant ReadCookies(cookieIss, cookies) == CookiesOf(headers)
          decreases |cookieIss|
        {
          RestIsShorter(cookieIss, ';');
          var cookiePair := Line(cookieIss, ';');
          cookieIss := Rest(cookieIss, ';');
          if '=' in cookiePair {
            cookies := cookies[CookieName(cookiePair) := CookieValue(cookiePair)];
          }
        }
      }
    }

    method HandleMultipartFormData() returns (outcome: Result<()>)
      modifies this
      ensures (State(), outcome) == old(ReadForm(State()))
    {
      if !IsMultipart(mHeaders) {
        return Ok(());
      }
      MultipartIsLong(mHeaders);
      var boundary := Boundary(mHeaders["Content-Type"]);
      var parts := CollectParts(mBody, boundary);
      var formFields: Fields := map[];
      var i := 0;
      ghost var before := State();
      while i < |parts|
        invariant 0 <= i <= |parts|
        invariant State() == before.(fileUploads := mFileUploads)
        invariant ReadParts(parts[i..], formFields, mFileUploads) == ReadParts(parts, map[], before.fileUploads)
      {
        assert parts[i..][1..] == parts[i + 1..];
        match ReadPart(parts[i]) {
          case Err(e) => return Err(e);
          case Ok(Field(name, value)) => formFields := formFields[name := value];
          case Ok(File(_, fileName, content)) => mFileUploads := mFileUploads[fileName := content];
        }
        i := i + 1;
      }
      mFormFields := formFields;
      return Ok(());
    }

    method CollectParts(body: string, boundary: string) returns (parts: seq<string>)
      requires boundary != ""
      ensures parts == SplitParts(body, boundary, 0)
    {
      hide OccursAt, Find;
      parts := [];
      var pos := 0;
      var found := Find(body, boundary, pos);
      while found.Some?
        invariant 0 <= pos <= |body| && found == Find(body, boundary, pos)
        invariant parts + SplitParts(body, boundary, pos) == SplitParts(body, boundary, 0)
        decreases |body| - pos
      {
        FindIsFirst(body, boundary, pos);
        var p := found.value;
        var nextPos := NextBoundary(body, boundary, p);
        parts := parts + [Substr(body, p + |boundary|, nextPos - p - |boundary| - 2)];
        pos := nextPos;
        found := Find(body, boundary, pos);
      }
    }

    method GetHeaderValue(key: string, order: seq<string>) returns (value: string)
      requires Enumerates(order, mHeaders)
      ensures value == Lookup(mHeaders, key, order)
    {
      var i := 0;
      while i < |order|
        invariant 0 <= i <= |order|
        invariant Lookup(mHeaders, key, order[i..]) == Lookup(mHeaders, key, order)
      {
        assert order[i..][1..] == order[i + 1..];
        if ToLower(order[i]) == ToLower(key) {
          return mHeaders[order[i]];
        }
        i := i + 1;
      }
      return "";
    }

    method KeepAlive(order: seq<string>) returns (keep: bool)
      requires Enumerates(order, mHeaders)
      ensures keep == WantsKeepAlive(mHeaders, order)
    {
      var value := GetHeaderValue("Connection", order);
      return value != "" && Trim(value) == "keep-alive";
    }
  }
}
