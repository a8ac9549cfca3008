/** The words that the parser looks for in the header values of a printed request, and what it makes of
    header lines and cookies that are written differently. */
module HeaderWords {
  import opened Text
  import opened Decimal
  import opened HttpRequest
  import opened MessageHead
  import opened RequestRoundTrip

  // ---------------------------------------------------------------- words in a stored value

  /** Neither the space before a stored value nor the carriage return behind it belongs to a word. */
  predicate IsPlainWord(p: string) {
    p != "" && ' ' !in p && '\r' !in p
  }

  lemma WordInside(v: string, p: string, i: nat)
    requires IsPlainWord(p) && OccursAt(" " + v + "\r", p, i)
    ensures 0 < i && OccursAt(v, p, i - 1)
  {
    var s := " " + v + "\r";
    OccursChar(s, p, i, 0);
    OccursChar(s, p, i, |p| - 1);
    assert p[0] in p && p[|p| - 1] in p;
    assert s[i..i + |p|] == v[i - 1..i - 1 + |p|];
  }

  lemma WordOutside(v: string, p: string, i: nat)
    requires OccursAt(v, p, i)
    ensures OccursAt(" " + v + "\r", p, i + 1)
  {
    assert (" " + v + "\r")[i + 1..i + 1 + |p|] == v[i..i + |p|];
  }

  lemma {:induction false} FoundInStoredIff(v: string, p: string)
    requires IsPlainWord(p)
    ensures Find(" " + v + "\r", p, 0).Some? <==> Contains(v, p)
  {
    FindIsFirst(" " + v + "\r", p, 0);
    hide OccursAt, Find;
    if i: nat :| Find(" " + v + "\r", p, 0) == Some(i) {
      WordInside(v, p, i);
    } else {
      forall i: nat ensures !OccursAt(v, p, i) {
        if OccursAt(v, p, i) {
          WordOutside(v, p, i);
        }
      }
      NotContained(v, p);
    }
  }

  lemma Words()
    ensures IsPlainWord("gzip") && IsPlainWord("deflate") && IsPlainWord("multipart/form-data")
  {
  }

  /** Some header of the request has that name. */
  predicate Named(hs: seq<Header>, name: string) {
    exists i :: 0 <= i < |hs| && hs[i].name == name
  }

  lemma NotStored(hs: seq<Header>, name: string)
    requires !Named(hs, name)
    ensures name !in Stored(hs, map[])
  {
    StoredIsLastWins(hs, map[]);
    NotAName(hs, name);
  }

  /** The last Content-Encoding says that the body is compressed when it names gzip or deflate. */
  lemma {:induction false} CompressedIff(hs: seq<Header>, i: nat)
    requires LastOf(hs, i) && hs[i].name == "Content-Encoding"
    ensures IsCompressed(Stored(hs, map[])) <==> Contains(hs[i].value, "gzip") || Contains(hs[i].value, "deflate")
  {
    StoredIsLastWins(hs, map[]);
    Words();
    hide Contains, Find, Stored, IsPlainWord;
    FoundInStoredIff(hs[i].value, "gzip");
    FoundInStoredIff(hs[i].value, "deflate");
  }

  /** And the last Content-Type makes the request a form when it names multipart/form-data. */
  lemma {:induction false} MultipartIff(hs: seq<Header>, i: nat)
    requires LastOf(hs, i) && hs[i].name == "Content-Type"
    ensures IsMultipart(Stored(hs, map[])) <==> Contains(hs[i].value, "multipart/form-data")
  {
    StoredIsLastWins(hs, map[]);
    Words();
    hide Contains, Find, Stored, IsPlainWord;
    FoundInStoredIff(hs[i].value, "multipart/form-data");
  }

  /** Without these headers the request is neither. */
  lemma {:induction false} NeitherWithoutHeader(hs: seq<Header>)
    ensures !Named(hs, "Content-Encoding") ==> !IsCompressed(Stored(hs, map[]))
    ensures !Named(hs, "Content-Type") ==> !IsMultipart(Stored(hs, map[]))
  {
    hide Stored, Find, Named;
    if !Named(hs, "Content-Encoding") {
      NotStored(hs, "Content-Encoding");
    }
    if !Named(hs, "Content-Type") {
      NotStored(hs, "Content-Type");
    }
  }

  // ---------------------------------------------------------------- what a request without a header has

  /** A request arrives without a body, without cookies, or without a form when it has no header for it,
      whatever the body that was sent with it; unless `stoi` refuses its length. */
  lemma {:induction false} NothingWithoutItsHeader(r: Request, verb: string, target: string, version: string,
                                                   hs: seq<Header>, body: string, inflate: string -> string)
    requires IsWord(verb) && IsWord(target) && '\n' !in version && AllPrintable(hs)
    requires "Content-Length" in Stored(hs, map[]) ==> StoI(Stored(hs, map[])["Content-Length"]).Ok?
    ensures var (parsed, outcome) := Parse(r, RequestText(verb, target, version, hs, body), inflate);
            && (!Named(hs, "Content-Length") ==> parsed.body == "")
            && (!Named(hs, "Cookie") ==> parsed.cookies == map[])
            && (!Named(hs, "Content-Type") ==> outcome.Ok? && SameForm(r, parsed))
  {
    hide Parse, RequestText, Stored, Named, StoI, PathOf, IsWord, IsCompressed, IsMultipart, AllPrintable,
      ReadCookies, SameForm;
    RequestRoundTrip.RequestRoundTrip(r, verb, target, version, hs, body, inflate);
    if !Named(hs, "Content-Length") {
      NotStored(hs, "Content-Length");
    }
    if !Named(hs, "Cookie") {
      NotStored(hs, "Cookie");
    }
    NeitherWithoutHeader(hs);
  }

  /** The body of a request with a length that is an int is inflated exactly when the last Content-Encoding
      names gzip or deflate. */
  lemma {:induction false} BodyIsInflatedIff(r: Request, verb: string, target: string, version: string,
                                             hs: seq<Header>, i: nat, body: string, inflate: string -> string)
    requires IsWord(verb) && IsWord(target) && '\n' !in version && AllPrintable(hs)
    requires "Content-Length" in Stored(hs, map[]) && StoI(Stored(hs, map[])["Content-Length"]).Ok?
    requires LastOf(hs, i) && hs[i].name == "Content-Encoding"
    ensures Parse(r, RequestText(verb, target, version, hs, body), inflate).0.body
         == if Contains(hs[i].value, "gzip") || Contains(hs[i].value, "deflate") then inflate(body) else body
  {
    CompressedIff(hs, i);
    hide Parse, RequestText, Stored, StoI, PathOf, IsWord, IsCompressed, IsMultipart, AllPrintable, CookiesOf,
      SameForm, Contains, LastOf;
    RequestRoundTrip.RequestRoundTrip(r, verb, target, version, hs, body, inflate);
  }

  /** Whatever the headers, if those named Connection agree, keep-alive is asked for exactly when there is one
      and it says so. */
  lemma {:induction false} KeepAliveIff(headers: Fields, order: seq<string>)
    requires Enumerates(order, headers) && Unambiguous(headers, "Connection")
    ensures WantsKeepAlive(headers, order) <==>
              exists k :: k in headers && SameName(k, "Connection") && Trim(headers[k]) == "keep-alive"
  {
    hide ToLower, SameName;
    LookupFinds(headers, "Connection", order);
    EmptyIsNotKeepAlive();
    hide Trim, Lookup;
    if k :| k in headers && SameName(k, "Connection") && Trim(headers[k]) == "keep-alive" {
      assert k in order;
    }
  }

  lemma EmptyIsNotKeepAlive()
    ensures Trim("") != "keep-alive"
  {
  }

  // ---------------------------------------------------------------- lines and cookies in other forms

  /** A header line without a colon is stored whole as a name with an empty value; in one with several, the
      first one counts. */
  lemma {:induction false} HeaderLineSplits(name: string, value: string)
    requires ':' !in name && '\n' !in value
    ensures HeaderName(name) == name && HeaderValue(name) == ""
    ensures HeaderName(name + ":" + value) == name && HeaderValue(name + ":" + value) == value
  {
    LineOf(name, ':', value);
    LineOf(value, '\n', "");
    LineOf("", '\n', "");
    assert name + [':'] + value == name + ":" + value;
  }

  /** Of a cookie pair the blanks around the name and the value are trimmed, and behind the value a carriage
      return as well. */
  lemma {:induction false} CookieIsTrimmed(left: string, name: string, right: string, before: string, value: string,
                                           after: string)
    requires '=' !in name && AllIn(left, " \t") && AllIn(right, " \t") && Tight(name, " \t", " \t") && name != ""
    requires AllIn(before, " \t") && AllIn(after, " \t\r") && Tight(value, " \t", " \t\r") && value != ""
    ensures var pair := left + name + right + "=" + before + value + after;
            CookieName(pair) == name && CookieValue(pair) == value
  {
    var pair := left + name + right + "=" + before + value + after;
    assert pair == (left + name + right) + ['='] + (before + value + after);
    NoEqualsAround(left, name, right);
    LineOf(left + name + right, '=', before + value + after);
    hide TrimLeft, TrimRight, Line, Rest;
    TrimAround(left, name, right, " \t", " \t");
    TrimAround(before, value, after, " \t", " \t\r");
  }

  /** A piece without an equals sign is no cookie. */
  lemma {:induction false} PieceWithoutEqualsIsSkipped(piece: string, rest: string, m: Fields)
    requires '=' !in piece && ';' !in piece
    ensures ReadCookies(piece + ";" + rest, m) == ReadCookies(rest, m)
  {
    LineOf(piece, ';', rest);
    assert piece + [';'] + rest == piece + ";" + rest;
    hide Line, Rest, CookieName, CookieValue;
  }

  lemma NoEqualsAround(left: string, name: string, right: string)
    requires '=' !in name && AllIn(left, " \t") && AllIn(right, " \t")
    ensures '=' !in left + name + right
  {
  }

  lemma TrimAround(left: string, s: string, right: string, front: string, back: string)
    requires AllIn(left, front) && AllIn(right, back) && Tight(s, front, back) && s != ""
    ensures TrimRight(TrimLeft(left + s + right, front), back) == s
  {
    assert left + s + right == left + (s + right);
    TrimLeftOf(left, s + right, front);
    TrimRightOf(s, right, back);
  }
}
