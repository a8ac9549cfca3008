/** The Content-Type of a form request and its boundary parameter, from the text of the request to the
    maps of the form. */
module MultipartRequest {
  import opened Text
  import opened Decimal
  import opened HttpRequest
  import opened MessageHead
  import opened RequestRoundTrip
  import opened MultipartRoundTrip

  const FORM_TYPE: string := "multipart/form-data; boundary="

  lemma {:induction false} BoundaryOfPrinted(b: string)
    ensures Boundary(" " + (FORM_TYPE + b) + "\r") == Delimiter(b)
    ensures Find(" " + (FORM_TYPE + b) + "\r", "multipart/form-data", 0).Some?
  {
    var p, x, v := "boundary=", " multipart/form-data; ", " " + (FORM_TYPE + b) + "\r";
    NotWithoutMarker(x + "boundary", p, '=');
    assert p[..8] == "boundary";
    FormTypeShape(b);
    FindAfter(x, p, b + "\r");
    FindIsFirst(v, "multipart/form-data", 0);
    hide Find, Contains;
  }

  lemma FormTypeShape(b: string)
    ensures var v := " " + (FORM_TYPE + b) + "\r";
            && v == " multipart/form-data; " + "boundary=" + (b + "\r") && v[31..] == b + "\r"
            && OccursAt(v, "multipart/form-data", 1)
  {
    var v := " " + (FORM_TYPE + b) + "\r";
    var head := " " + FORM_TYPE;
    FormTypeWords();
    hide OccursAt;
    assert v == head + (b + "\r");
    OccursInFront(head, b + "\r", "multipart/form-data", 1);
  }

  lemma FormTypeWords()
    ensures " " + FORM_TYPE == " multipart/form-data; " + "boundary=" && |FORM_TYPE| == 30
    ensures OccursAt(" " + FORM_TYPE, "multipart/form-data", 1)
  {
    assert (" " + FORM_TYPE)[1..20] == "multipart/form-data";
  }

  lemma FormIsRead(hs: seq<Header>, i: nat, b: string)
    requires LastOf(hs, i) && hs[i] == Header("Content-Type", FORM_TYPE + b)
    ensures var headers := Stored(hs, map[]);
            IsMultipart(headers) && |headers["Content-Type"]| >= 19 && Boundary(headers["Content-Type"]) == Delimiter(b)
  {
    StoredIsLastWins(hs, map[]);
    BoundaryOfPrinted(b);
    hide Stored, Find, Delimiter;
    MultipartIsLong(Stored(hs, map[]));
  }

  lemma LengthIsRead(hs: seq<Header>, k: nat, n: nat)
    requires LastOf(hs, k) && hs[k] == Header("Content-Length", ToString(n))
    ensures var headers := Stored(hs, map[]);
            && "Content-Length" in headers
            && StoI(headers["Content-Length"]) == if n <= INT_MAX then Ok(n) else Err(OutOfRange)
  {
    StoredIsLastWins(hs, map[]);
    StoIReadsToString(n, "\r");
    hide Stored, StoI, ToString;
  }

  /** A parse that gets past the length is a reading of the form, on an object that differs in the
      form alone. */
  lemma BeforeForm(r: Request, text: string, inflate: string -> string) returns (before: Request)
    requires var headers := ReadHeaders(Rest(text, '\n'), map[]);
             "Content-Length" in headers && StoI(headers["Content-Length"]).Ok?
    ensures Parse(r, text, inflate) == ReadForm(before)
    ensures before.fileUploads == r.fileUploads && before.formFields == r.formFields
    ensures before.headers == Parse(r, text, inflate).0.headers && before.body == Parse(r, text, inflate).0.body
  {
    hide Line, Rest, ReadHeaders, BodyText, MethodOf, TargetOf, ReadForm, IsCompressed, CookiesOf, ReadToken, PathOf,
      StoI;
    var headers, first := ReadHeaders(Rest(text, '\n'), map[]), Line(text, '\n');
    before := r.(verb := MethodOf(first), path := PathOf(TargetOf(first)), headers := headers,
                 body := ReadBody(text, headers, inflate).value, authToken := ReadToken(headers),
                 cookies := CookiesOf(headers));
    FormKeepsTheRest(before);
  }

  /** The fields and the files after reading a form with boundary b under the parameter text t. */
  function FieldsRead(before: Fields, parts: seq<Part>, b: string, t: string): Fields {
    if t != b then map[] else if OnlyDashes(b) then before else MapOf(parts, false, map[])
  }

  function FilesRead(before: Fields, parts: seq<Part>, b: string, t: string): Fields {
    if t != b then before else MapOf(parts, true, before)
  }

  lemma FormGives(r: Request, parts: seq<Part>, b: string, t: string)
    requires '\r' !in b && AllSendable(parts, b) && r.body == FormBody(parts, b)
    requires IsMultipart(r.headers) && |r.headers["Content-Type"]| >= 19
    requires Boundary(r.headers["Content-Type"]) == Delimiter(t)
    requires t == b || !Contains(FormBody(parts, b), Delimiter(t))
    ensures var (read, outcome) := ReadForm(r);
            && (outcome.Ok? <==> t != b || !OnlyDashes(b))
            && read.formFields == FieldsRead(r.formFields, parts, b, t)
            && read.fileUploads == FilesRead(r.fileUploads, parts, b, t)
  {
    FormRoundTrip(r, parts, b, t);
    hide ReadForm, FormBody, IsMultipart, Boundary, Delimiter, OnlyDashes, Sendable, MapOf, Contains;
  }

  lemma ParsedForm(r: Request, text: string, parts: seq<Part>, b: string, t: string, inflate: string -> string)
    requires '\r' !in b && AllSendable(parts, b)
    requires var headers := ReadHeaders(Rest(text, '\n'), map[]);
             "Content-Length" in headers && StoI(headers["Content-Length"]).Ok?
    requires var parsed := Parse(r, text, inflate).0;
             && parsed.body == FormBody(parts, b) && IsMultipart(parsed.headers)
             && |parsed.headers["Content-Type"]| >= 19 && Boundary(parsed.headers["Content-Type"]) == Delimiter(t)
    requires t == b || !Contains(FormBody(parts, b), Delimiter(t))
    ensures var (parsed, outcome) := Parse(r, text, inflate);
            && (outcome.Ok? <==> t != b || !OnlyDashes(b))
            && parsed.formFields == FieldsRead(r.formFields, parts, b, t)
            && parsed.fileUploads == FilesRead(r.fileUploads, parts, b, t)
  {
    var before := BeforeForm(r, text, inflate);
    hide FormBody, IsMultipart, Boundary, Delimiter, OnlyDashes, Sendable, StoI, MapOf, Parse, ReadForm, ReadHeaders,
      Rest, Contains, FieldsRead, FilesRead;
    FormGives(before, parts, b, t);
  }

  /** From the text of a form request, compressed or not, to its maps. The parse succeeds exactly when
      the length sent is an int and the boundary is not one of dashes given as it is; and the maps are
      those of the form when the boundary is given as it is, and nothing when it is not. */
  lemma {:induction false} FormRequestRoundTrip(r: Request, verb: string, target: string, version: string,
                                                hs: seq<Header>, i: nat, k: nat, parts: seq<Part>, b: string, t: string,
                                                sent: string, inflate: string -> string)
    requires IsWord(verb) && IsWord(target) && '\n' !in version && AllPrintable(hs)
    requires '\r' !in b && AllSendable(parts, b) && (t == b || !Contains(FormBody(parts, b), Delimiter(t)))
    requires LastOf(hs, i) && hs[i] == Header("Content-Type", FORM_TYPE + t)
    requires LastOf(hs, k) && hs[k] == Header("Content-Length", ToString(|sent|))
    requires FormBody(parts, b) == if IsCompressed(Stored(hs, map[])) then inflate(sent) else sent
    ensures var (parsed, outcome) := Parse(r, RequestText(verb, target, version, hs, sent), inflate);
            && (outcome.Ok? <==> |sent| <= INT_MAX && (t != b || !OnlyDashes(b)))
            && (|sent| > INT_MAX ==> parsed == r)
            && (|sent| <= INT_MAX ==>
                  && Recovered(parsed, verb, target, hs, sent, inflate) && parsed.body == FormBody(parts, b)
                  && parsed.formFields == FieldsRead(r.formFields, parts, b, t)
                  && parsed.fileUploads == FilesRead(r.fileUploads, parts, b, t))
  {
    var text, headers := RequestText(verb, target, version, hs, sent), Stored(hs, map[]);
    FormIsRead(hs, i, t);
    LengthIsRead(hs, k, |sent|);
    RequestRoundTrip.RequestRoundTrip(r, verb, target, version, hs, sent, inflate);
    HeadersOfRequest(verb, target, version, hs, sent);
    hide FormBody, RequestText, Stored, IsMultipart, Boundary, Delimiter, OnlyDashes, Sendable, StoI, MapOf, ToString,
      IsCompressed, IsWord, Parse, ReadHeaders, Rest, PathOf, CookiesOf, Printable, LastOf, Contains, FieldsRead,
      FilesRead;
    if |sent| <= INT_MAX {
      ParsedForm(r, text, parts, b, t, inflate);
    }
  }

  // ---------------------------------------------------------------- quoted boundaries

  /** Some part holds the delimiter that the parameter text t makes. */
  predicate SomePartHolds(parts: seq<Part>, t: string) {
    exists i :: 0 <= i < |parts| && Contains(PartText(parts[i]) + "\r", Delimiter(t))
  }

  lemma NextPartHolds(parts: seq<Part>, t: string)
    requires parts != []
    ensures SomePartHolds(parts, t) <==>
              Contains(PartText(parts[0]) + "\r", Delimiter(t)) || SomePartHolds(parts[1..], t)
  {
    hide Contains, PartText, Delimiter;
    if i :| 0 <= i < |parts| && Contains(PartText(parts[i]) + "\r", Delimiter(t)) {
      assert i > 0 ==> parts[1..][i - 1] == parts[i];
    }
    if i :| 0 <= i < |parts[1..]| && Contains(PartText(parts[1..][i]) + "\r", Delimiter(t)) {
      assert parts[i + 1] == parts[1..][i];
    }
  }

  lemma FirstPartHolds(text: string, rest: string, b: string, t: string)
    requires '\r' !in b && '\r' !in t
    ensures Contains("--" + b + "\r\n" + text + "\r\n" + rest, Delimiter(t)) <==>
              EndsWith("--" + b, "--" + t) || Contains(text + "\r", Delimiter(t)) || Contains(rest, Delimiter(t))
  {
    var u := text + "\r";
    DelimiterEnds(t);
    DropFirst('\n', rest, Delimiter(t));
    CutBehind(u, ['\n'] + rest, Delimiter(t), '\r');
    DelimiterInFirstLine("--" + b, u + (['\n'] + rest), t);
    hide Contains, Delimiter, EndsWith;
    assert "--" + b + "\r\n" + text + "\r\n" + rest == ("--" + b) + (CRLF + (u + (['\n'] + rest)));
  }

  /** Where a form printed with boundary b can hold the delimiter of another parameter text. */
  lemma {:induction false} StrayDelimiterIff(parts: seq<Part>, b: string, t: string)
    requires '\r' !in b && '\r' !in t
    ensures Contains(FormBody(parts, b), Delimiter(t)) <==>
              || EndsWith("--" + b + "--", "--" + t)
              || (parts != [] && EndsWith("--" + b, "--" + t))
              || SomePartHolds(parts, t)
  {
    hide Contains, Delimiter, EndsWith, PartText;
    if parts == [] {
      NothingContained(t);
      DelimiterInFirstLine("--" + b + "--", "", t);
      assert FormBody(parts, b) == ("--" + b + "--") + (CRLF + "");
      assert !SomePartHolds(parts, t);
    } else {
      FirstPartHolds(PartText(parts[0]), FormBody(parts[1..], b), b, t);
      NextPartHolds(parts, t);
      StrayDelimiterIff(parts[1..], b, t);
      assert FormBody(parts, b) == "--" + b + "\r\n" + PartText(parts[0]) + "\r\n" + FormBody(parts[1..], b);
    }
  }

  lemma NothingContained(t: string)
    ensures !Contains("", Delimiter(t))
  {
  }

  lemma QuoteEndsNeither(b: string)
    requires '"' !in b
    ensures !EndsWith("--" + b + "--", "--" + Parameter(b, true)) && !EndsWith("--" + b, "--" + Parameter(b, true))
  {
    LastOfEnd("--" + b + "--", "--" + Parameter(b, true));
    LastOfEnd("--" + b, "--" + Parameter(b, true));
    assert b != "" ==> b[|b| - 1] in b;
  }

  lemma LastOfEnd(s: string, t: string)
    requires t != ""
    ensures EndsWith(s, t) ==> s != "" && s[|s| - 1] == t[|t| - 1]
  {
  }

  /** A form whose boundary is given in quotes is lost, and nothing says so: no field and no file
      arrives, unless a part happens to hold the boundary in quotes. */
  lemma {:induction false} QuotedFormIsLost(r: Request, parts: seq<Part>, b: string)
    requires '\r' !in b && '"' !in b && r.body == FormBody(parts, b)
    requires IsMultipart(r.headers) && |r.headers["Content-Type"]| >= 19
    requires Boundary(r.headers["Content-Type"]) == Delimiter(Parameter(b, true))
    requires !SomePartHolds(parts, Parameter(b, true))
    ensures ReadForm(r) == (r.(formFields := map[]), Ok(()))
  {
    StrayDelimiterIff(parts, b, Parameter(b, true));
    QuoteEndsNeither(b);
    ReadWithAnotherBoundary(r, Parameter(b, true));
  }

  /** So is a form whose boundary is followed by another parameter. */
  lemma {:induction false} BoundaryWithMoreIsLost(r: Request, parts: seq<Part>, b: string, more: string)
    requires '\r' !in b && '\r' !in more && |more| >= 2 && r.body == FormBody(parts, b)
    requires IsMultipart(r.headers) && |r.headers["Content-Type"]| >= 19
    requires Boundary(r.headers["Content-Type"]) == Delimiter(b + ";" + more)
    requires !SomePartHolds(parts, b + ";" + more)
    ensures ReadForm(r) == (r.(formFields := map[]), Ok(()))
  {
    var t := b + ";" + more;
    StrayDelimiterIff(parts, b, t);
    hide ReadForm, Contains, Delimiter, IsMultipart, Boundary, SomePartHolds, FormBody;
    assert |"--" + t| > |"--" + b + "--"|;
    ReadWithAnotherBoundary(r, t);
  }

  /** Reading the form leaves exactly its maps, and throws nothing. */
  predicate ComesBack(r: Request, parts: seq<Part>) {
    ReadForm(r)
    == (r.(formFields := MapOf(parts, false, map[]), fileUploads := MapOf(parts, true, r.fileUploads)), Ok(()))
  }

  /** The form brings nothing: every part that would be kept is a file that was there before. */
  ghost predicate BringsNothing(parts: seq<Part>, uploads: Fields) {
    forall i: nat :: Wins(parts, i) ==> IsFile(parts[i]) && KeptIn(parts[i], uploads)
  }

  lemma {:induction false} WinnerFor(parts: seq<Part>, i: nat) returns (j: nat)
    requires i < |parts|
    ensures Wins(parts, j) && SameKind(parts[j], parts[i]) && Key(parts[j]) == Key(parts[i])
    decreases |parts| - i
  {
    hide Key, IsFile;
    if Wins(parts, i) {
      j := i;
    } else {
      var k :| i < k < |parts| && SameKind(parts[k], parts[i]) && Key(parts[k]) == Key(parts[i]);
      j := WinnerFor(parts, k);
    }
  }

  lemma NothingBrought(parts: seq<Part>, uploads: Fields)
    requires BringsNothing(parts, uploads)
    ensures MapOf(parts, false, map[]) == map[] && MapOf(parts, true, uploads) == uploads
  {
    hide Key, IsFile, Kept, MapOf;
    MapIsLastWins(parts, true, uploads);
    forall i | 0 <= i < |parts| ensures IsFile(parts[i]) {
      var j := WinnerFor(parts, i);
    }
    forall k ensures k !in MapOf(parts, false, map[]) {
      MapKeepsOthers(parts, false, map[], k);
    }
    forall k ensures k in MapOf(parts, true, uploads) <==> k in uploads
      ensures k in uploads ==> MapOf(parts, true, uploads)[k] == uploads[k] {
      if i :| 0 <= i < |parts| && Key(parts[i]) == k {
        var j := WinnerFor(parts, i);
        assert KeptIn(parts[j], MapOf(parts, true, uploads)) && KeptIn(parts[j], uploads);
      } else {
        MapKeepsOthers(parts, true, uploads, k);
      }
    }
  }

  lemma BringsNothingIff(parts: seq<Part>, uploads: Fields)
    ensures BringsNothing(parts, uploads) <==>
              MapOf(parts, false, map[]) == map[] && MapOf(parts, true, uploads) == uploads
  {
    hide Key, IsFile, Kept, MapOf;
    if BringsNothing(parts, uploads) {
      NothingBrought(parts, uploads);
    } else {
      MapIsLastWins(parts, false, map[]);
      MapIsLastWins(parts, true, uploads);
    }
  }

  /** When a printed form comes back: with the boundary given as it is, exactly when that is more than
      dashes, and with the boundary in quotes, exactly when there was nothing to bring. */
  lemma {:induction false} FormComesBackIff(r: Request, parts: seq<Part>, b: string, quoted: bool)
    requires '\r' !in b && '"' !in b && AllSendable(parts, b) && r.body == FormBody(parts, b)
    requires IsMultipart(r.headers) && |r.headers["Content-Type"]| >= 19
    requires Boundary(r.headers["Content-Type"]) == Delimiter(Parameter(b, quoted))
    requires quoted ==> !SomePartHolds(parts, Parameter(b, quoted))
    ensures ComesBack(r, parts) <==> if quoted then BringsNothing(parts, r.fileUploads) else !OnlyDashes(b)
  {
    if quoted {
      QuotedFormIsLost(r, parts, b);
      BringsNothingIff(parts, r.fileUploads);
    } else {
      ReadWithItsBoundary(r, parts, b);
    }
    hide ReadForm, MapOf, BringsNothing, FormBody, OnlyDashes, Sendable;
  }

  // ---------------------------------------------------------------- forms that do not come back

  lemma ShortPart()
    ensures Sendable(FieldPart("a", "b"), "-")
  {
    var part, p := FieldPart("a", "b"), Delimiter("-");
    DelimiterOnlyInContent(part, "-", false);
    forall i: nat ensures !OccursAt("b\r", p, i) {
    }
    NotContained("b\r", p);
  }

  /** A form with a boundary of dashes: its field is not stored, and the parse throws. */
  lemma {:induction false} DashBoundaryThrows(r: Request)
    requires r.headers == map["Content-Type" := " " + (FORM_TYPE + "-") + "\r"]
    requires r.body == FormBody([FieldPart("a", "b")], "-")
    ensures ReadForm(r) == (r, Err(OutOfRange))
  {
    var parts := [FieldPart("a", "b")];
    ShortPart();
    BoundaryOfPrinted("-");
    MultipartIsLong(r.headers);
    FormRoundTrip(r, parts, "-", "-");
    MapKeepsNothing(r.fileUploads);
  }

  lemma MapKeepsNothing(files: Fields)
    ensures MapOf([FieldPart("a", "b")], true, files) == files
  {
    assert [FieldPart("a", "b")][1..] == [];
  }

  /** The second line of a value is lost. */
  lemma {:induction false} SecondLineIsLost()
    ensures Kept("a\r\nb") == "a"
  {
    assert OccursAt("a\r\nb", CRLF, 1);
    if OccursAt("a\r\nb", CRLF, 0) {
      OccursChar("a\r\nb", CRLF, 0, 0);
    }
    FindAt("a\r\nb", CRLF, 0, 1);
  }

  /** A form with a quoted boundary, as section 4.1 of RFC 7578 prints it: its field is lost. */
  lemma {:induction false} QuotedBoundaryLosesTheField(r: Request)
    requires r.headers == map["Content-Type" := " " + (FORM_TYPE + "\"x\"") + "\r"]
    requires r.body == FormBody([FieldPart("a", "b")], "x")
    ensures ReadForm(r) == (r.(formFields := map[]), Ok(()))
  {
    var part, t := FieldPart("a", "b"), Parameter("x", true);
    BoundaryOfPrinted("\"x\"");
    MultipartIsLong(r.headers);
    DelimiterOnlyInContent(part, "x", true);
    forall i: nat ensures !OccursAt("b\r", Delimiter(t), i) {
    }
    NotContained("b\r", Delimiter(t));
    QuotedFormIsLost(r, [part], "x");
  }

  /** A field with a name that ends in `filename=` arrives as a file. */
  lemma {:induction false} FieldReadAsFile()
    ensures ReadPart("\n" + PartText(FieldPart("filename=", "v"))) == Ok(File("filename=", "", "v"))
  {
    var part := FieldPart("filename=", "v");
    ReadPrintedPart(part, "");
    NotWithoutMarker("v", CRLF, '\n');
    KeptIsAllIff("v");
    assert "filename="[0..] == "filename=";
    hide ReadPart, PartText, Kept;
    assert "\n" + PartText(part) + "" == "\n" + PartText(part);
  }
}
