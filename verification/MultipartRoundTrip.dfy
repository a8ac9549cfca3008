/** Printing a multipart form (section 5.1.1 of RFC 2046, section 4 of RFC 7578) and reading it back,
    although the stored boundary ends in a carriage return. */
module MultipartRoundTrip {
  import opened Text
  import opened Decimal
  import opened HttpRequest
  import opened MessageHead
  import opened RequestRoundTrip

  // ---------------------------------------------------------------- patterns that end in a marker

  /** The pattern ends in c and has no other c. */
  predicate EndsOnly(p: string, c: char) {
    p != "" && forall k :: 0 <= k < |p| ==> (p[k] == c <==> k == |p| - 1)
  }

  predicate EndsWith(s: string, t: string) {
    |t| <= |s| && s[|s| - |t|..] == t
  }

  lemma NoOccurrenceAcross(u: string, v: string, p: string, c: char, i: nat)
    requires EndsOnly(p, c) && u != "" && u[|u| - 1] == c && OccursAt(u + v, p, i)
    ensures i + |p| <= |u| || |u| <= i
  {
    if i < |u| < i + |p| {
      OccursChar(u + v, p, i, |u| - 1 - i);
    }
  }

  /** An occurrence of the pattern never reaches over a c, so a text can be cut behind one. */
  lemma CutBehind(u: string, v: string, p: string, c: char)
    requires EndsOnly(p, c) && u != "" && u[|u| - 1] == c
    ensures Contains(u + v, p) <==> Contains(u, p) || Contains(v, p)
  {
    forall i: nat | OccursAt(u + v, p, i) ensures OccursAt(u, p, i) || (|u| <= i && OccursAt(v, p, i - |u|)) {
      NoOccurrenceAcross(u, v, p, c, i);
      if i + |p| <= |u| {
        OccursInFront(u, v, p, i);
      } else {
        OccursBehind(u, v, p, i);
      }
    }
    forall i: nat | OccursAt(u, p, i) ensures OccursAt(u + v, p, i) {
      OccursInFront(u, v, p, i);
    }
    forall i: nat | OccursAt(v, p, i) ensures OccursAt(u + v, p, |u| + i) {
      OccursBehind(u, v, p, |u| + i);
    }
  }

  lemma NotWithoutMarker(u: string, p: string, c: char)
    requires EndsOnly(p, c) && c !in u
    ensures !Contains(u, p)
  {
    forall i: nat | OccursAt(u, p, i) ensures false {
      OccursChar(u, p, i, |p| - 1);
    }
  }

  /** Before the only c of a text, the rest of the pattern must stand. */
  lemma OneMarker(u: string, p: string, c: char)
    requires EndsOnly(p, c) && c !in u
    ensures Contains(u + [c], p) <==> EndsWith(u, p[..|p| - 1])
  {
    var s, n := u + [c], |p|;
    forall i: nat | OccursAt(s, p, i) ensures i + n == |s| && EndsWith(u, p[..n - 1]) {
      OccursChar(s, p, i, n - 1);
      assert s[i..i + n][..n - 1] == u[i..];
    }
    if EndsWith(u, p[..n - 1]) {
      assert s[|s| - n..] == p[..n - 1] + [c] == p;
      assert OccursAt(s, p, |s| - n);
    }
  }

  lemma DropFirst(d: char, y: string, p: string)
    requires p != "" && d != p[0]
    ensures Contains([d] + y, p) <==> Contains(y, p)
  {
    forall i: nat | OccursAt([d] + y, p, i) ensures 1 <= i && OccursAt(y, p, i - 1) {
      OccursChar([d] + y, p, i, 0);
      OccursBehind([d], y, p, i);
    }
    forall i: nat | OccursAt(y, p, i) ensures OccursAt([d] + y, p, i + 1) {
      OccursBehind([d], y, p, i + 1);
    }
  }

  // ---------------------------------------------------------------- splitting

  /** The blocks, each with the delimiter in front of it. */
  function Joined(blocks: seq<string>, p: string): string {
    if blocks == [] then "" else p + (blocks[0] + Joined(blocks[1..], p))
  }

  /** A block without its last two characters, as the splitter takes it. */
  function Clip(block: string): string {
    if |block| < 2 then block else block[..|block| - 2]
  }

  function Clipped(blocks: seq<string>): seq<string> {
    if blocks == [] then [] else [Clip(blocks[0])] + Clipped(blocks[1..])
  }

  /** No delimiter occurs in a block, or in a block and the beginning of the next delimiter. */
  predicate CleanBlocks(blocks: seq<string>, p: string)
    requires p != ""
  {
    forall i :: 0 <= i < |blocks| ==>
      !Contains(if i + 1 < |blocks| then blocks[i] + p[..|p| - 1] else blocks[i], p)
  }

  lemma NextBehind(x: string, y: string, p: string, at: nat)
    requires at + |p| <= |y|
    ensures NextBoundary(x + y, p, |x| + at) == |x| + NextBoundary(y, p, at)
  {
    FindBehind(x, y, p, at + |p|);
    hide Find;
  }

  lemma SubstrBehind(x: string, y: string, pos: nat, count: int)
    requires pos <= |y|
    ensures Substr(x + y, |x| + pos, count) == Substr(y, pos, count)
  {
  }

  lemma SplitNone(body: string, p: string, pos: nat)
    requires p != "" && Find(body, p, pos) == None
    ensures SplitParts(body, p, pos) == []
  {
  }

  lemma SplitStep(body: string, p: string, pos: nat, at: nat)
    requires p != "" && Find(body, p, pos) == Some(at)
    ensures pos <= at && at + |p| <= |body|
    ensures var next := NextBoundary(body, p, at);
            SplitParts(body, p, pos) == [Substr(body, at + |p|, next - at - |p| - 2)] + SplitParts(body, p, next)
  {
    FindIsFirst(body, p, pos);
    hide Find, NextBoundary, Substr;
  }

  lemma {:induction false} SplitBehind(x: string, y: string, p: string, pos: nat)
    requires p != ""
    ensures SplitParts(x + y, p, |x| + pos) == SplitParts(y, p, pos)
    decreases |y| - pos
  {
    FindBehind(x, y, p, pos);
    hide Find, NextBoundary, Substr, SplitParts;
    match Find(y, p, pos)
    case None =>
      SplitNone(y, p, pos);
      SplitNone(x + y, p, |x| + pos);
    case Some(at) =>
      SplitStep(y, p, pos, at);
      SplitStep(x + y, p, |x| + pos, |x| + at);
      NextBehind(x, y, p, at);
      var next := NextBoundary(y, p, at);
      SplitBehind(x, y, p, next);
      SubstrBehind(x, y, at + |p|, next - at - |p| - 2);
  }

  lemma NothingToSplit(block: string, p: string)
    requires p != ""
    ensures SplitParts(block, p, |block|) == []
  {
  }

  lemma FindAtStart(p: string, rest: string)
    ensures Find(p + rest, p, 0) == Some(0)
  {
    FindAt(p + rest, p, 0, 0);
  }

  lemma SplitLast(block: string, p: string)
    requires p != "" && Find(block, p, 0) == None
    ensures SplitParts(p + block, p, 0) == [Clip(block)]
  {
    var text := p + block;
    FindAtStart(p, block);
    FindBehind(p, block, p, 0);
    SplitStep(text, p, 0, 0);
    SplitBehind(p, block, p, |block|);
    NothingToSplit(block, p);
    hide Find, SplitParts;
    assert NextBoundary(text, p, 0) == |p| + |block|;
    assert Substr(text, |p|, |block| - 2) == Clip(block);
  }

  lemma SubstrClips(p: string, block: string, more: string)
    requires |block| >= 2 || more == ""
    ensures Substr(p + (block + more), |p|, |block| - 2) == Clip(block)
  {
    assert p + (block + more) == p + block + more;
  }

  lemma SplitAtStart(text: string, p: string, length: nat)
    requires p != "" && Find(text, p, 0) == Some(0) && Find(text, p, |p|) == Some(|p| + length)
    ensures |p| + length <= |text|
    ensures SplitParts(text, p, 0) == [Substr(text, |p|, length - 2)] + SplitParts(text, p, |p| + length)
  {
    hide Find, SplitParts, Substr, OccursAt;
    SplitStep(text, p, 0, 0);
    FindIsFirst(text, p, |p|);
  }

  lemma SplitFirst(block: string, more: string, p: string)
    requires p != "" && |block| >= 2 && Find(block + more, p, 0) == Some(|block|)
    ensures SplitParts(p + (block + more), p, 0) == [Clip(block)] + SplitParts(more, p, 0)
  {
    hide Find, SplitParts, Substr, Clip;
    FindAtStart(p, block + more);
    FindBehind(p, block + more, p, 0);
    SplitAtStart(p + (block + more), p, |block|);
    SubstrClips(p, block, more);
    SplitBehind(p + block, more, p, 0);
    Associative(p, block, more);
  }

  /** Blocks between clean delimiters come out one by one, clipped. */
  lemma {:induction false} SplitJoined(blocks: seq<string>, p: string)
    requires p != "" && CleanBlocks(blocks, p)
    requires forall i :: 0 <= i < |blocks| - 1 ==> |blocks[i]| >= 2
    ensures SplitParts(Joined(blocks, p), p, 0) == Clipped(blocks)
  {
    if blocks == [] {
      NothingToSplit("", p);
    } else {
      var rest := Joined(blocks[1..], p);
      hide SplitParts, Clip, Contains, Find;
      if |blocks| == 1 {
        FindAbsent(blocks[0], p);
        SplitLast(blocks[0], p);
        assert blocks[0] + Joined([], p) == blocks[0] && blocks[1..] == [];
      } else {
        assert blocks[0] + rest == blocks[0] + p + (blocks[1] + Joined(blocks[2..], p)) by {
          assert blocks[1..][1..] == blocks[2..];
        }
        FindAfter(blocks[0], p, blocks[1] + Joined(blocks[2..], p));
        SplitFirst(blocks[0], rest, p);
        forall i | 0 <= i < |blocks| - 1
          ensures !Contains(if i + 1 < |blocks[1..]| then blocks[1..][i] + p[..|p| - 1] else blocks[1..][i], p) {
          assert blocks[1..][i] == blocks[i + 1];
        }
        SplitJoined(blocks[1..], p);
      }
    }
  }

  // ---------------------------------------------------------------- printed forms

  datatype Part = FieldPart(name: string, content: string)
                | FilePart(name: string, fileName: string, contentType: string, content: string)

  const DISPOSITION: string := "Content-Disposition: form-data; "

  function Disposition(part: Part): string {
    match part
    case FieldPart(name, _) => DISPOSITION + "name=\"" + (name + "\"")
    case FilePart(name, fileName, _, _) =>
      DISPOSITION + "name=\"" + (name + "\"" + ("; filename=\"" + (fileName + "\"")))
  }

  function PartHeader(part: Part): string {
    match part
    case FieldPart(_, _) => Disposition(part)
    case FilePart(_, _, contentType, _) => Disposition(part) + ("\r\nContent-Type: " + contentType)
  }

  function PartText(part: Part): string {
    PartHeader(part) + BLANK_LINE + part.content
  }

  /** dash-boundary CRLF body-part CRLF, for every part, and then the close-delimiter. */
  function FormBody(parts: seq<Part>, b: string): string {
    if parts == [] then "--" + b + "--\r\n"
    else "--" + b + "\r\n" + PartText(parts[0]) + "\r\n" + FormBody(parts[1..], b)
  }

  /** What the header parser makes of the boundary: the carriage return of the header line stays. */
  function Delimiter(b: string): string {
    "--" + b + "\r"
  }

  /** Text in the quotes of a disposition. */
  predicate Quotable(s: string) {
    '"' !in s && '\r' !in s
  }

  /** The names fit between their quotes, and the type is a header value. */
  predicate Wellformed(part: Part) {
    && Quotable(part.name)
    && (part.FilePart? ==> Quotable(part.fileName) && '\r' !in part.contentType && '\n' !in part.contentType)
  }

  /** The delimiter does not occur in the part. */
  predicate Sendable(part: Part, b: string) {
    Wellformed(part) && !Contains(PartText(part) + "\r", Delimiter(b))
  }

  predicate AllSendable(parts: seq<Part>, b: string) {
    forall i :: 0 <= i < |parts| ==> Sendable(parts[i], b)
  }

  // ---------------------------------------------------------------- one part

  /** What survives of a content: its first line. */
  function Kept(content: string): string {
    UpTo(content, Find(content, CRLF, 0))
  }

  lemma {:induction false} KeptIsAllIff(content: string)
    ensures Kept(content) == content <==> !Contains(content, CRLF)
  {
    FindIsFirst(content, CRLF, 0);
    NotContained(content, CRLF);
  }

  lemma KeptBeforeTail(content: string, tail: string)
    requires tail == "" || CRLF <= tail
    ensures UpTo(content + tail, Find(content + tail, CRLF, 0)) == Kept(content)
  {
    if tail == "" {
      assert content + tail == content;
    } else {
      assert content + tail == content + CRLF + tail[2..];
      FindIsFirst(content, CRLF, 0);
      match Find(content, CRLF, 0)
      case Some(i) =>
        forall j: nat | j <= i ensures OccursAt(content + tail, CRLF, j) <==> OccursAt(content, CRLF, j) {
          OccursInFront(content, tail, CRLF, j);
        }
        FindAt(content + tail, CRLF, 0, i);
      case None =>
        forall j: nat | OccursAt(content + "\r", CRLF, j) ensures false {
          OccursChar(content + "\r", CRLF, j, 1);
          OccursInFront(content, "\r", CRLF, j);
        }
        assert CRLF[..1] == "\r";
        FindAfter(content, CRLF, tail[2..]);
    }
  }

  /** No line feed of x stands before a carriage return or at the end. */
  predicate NoBlankLineIn(x: string) {
    forall k :: 0 <= k < |x| && x[k] == '\n' ==> k + 1 < |x| && x[k + 1] != '\r'
  }

  lemma FirstBlankLineAfter(x: string, y: string)
    requires NoBlankLineIn(x)
    ensures Find(x + BLANK_LINE + y, BLANK_LINE, 0) == Some(|x|)
  {
    var front := x + "\r\n\r";
    forall i: nat | OccursAt(front, BLANK_LINE, i) ensures false {
      OccursChars(front, i);
    }
    assert BLANK_LINE[..3] == "\r\n\r";
    FindAfter(x, BLANK_LINE, y);
  }

  lemma DispositionShape(part: Part)
    requires Quotable(part.name) && (part.FilePart? ==> Quotable(part.fileName))
    ensures var d := Disposition(part); '\r' !in d && d != "" && d[0] == 'C' && d[|d| - 1] == '"'
  {
  }

  lemma NoBlankLineOf(u: string, t: string)
    requires u != "" && '\r' !in u && u[|u| - 1] != '\n'
    requires |t| >= 2 && t[0] == '\n' && '\r' !in t && '\n' !in t[1..]
    ensures NoBlankLineIn(u) && NoBlankLineIn(u + ['\r'] + t)
  {
    var s := u + ['\r'] + t;
    assert t == [t[0]] + t[1..];
    assert forall k :: 0 <= k < |s| && s[k] == '\n' ==> k < |u| - 1 || k == |u| + 1;
  }

  lemma FileHeaderShape(d: string, contentType: string)
    ensures "\n" + (d + ("\r\nContent-Type: " + contentType))
         == ("\n" + d) + ['\r'] + ("\nContent-Type: " + contentType)
  {
    assert "\r\nContent-Type: " == ['\r'] + "\nContent-Type: ";
  }

  lemma HeaderHasNoBlankLine(part: Part)
    requires Wellformed(part)
    ensures NoBlankLineIn("\n" + PartHeader(part))
    ensures Line("\n" + PartHeader(part), '\r') == "\n" + Disposition(part)
  {
    hide EndsWith, Disposition, NoBlankLineIn, Line;
    var d := Disposition(part);
    DispositionShape(part);
    match part
    case FieldPart(_, _) =>
      NoBlankLineOf("\n" + d, "\n-");
      LineOf("\n" + d, '\r', "");
    case FilePart(_, _, contentType, _) =>
      var t := "\nContent-Type: " + contentType;
      NoBlankLineOf("\n" + d, t);
      LineOf("\n" + d, '\r', t);
      FileHeaderShape(d, contentType);
  }

  lemma QuotedName(before: string, name: string, after: string)
    requires '"' !in name
    ensures Quoted(before + (name + "\"" + after), |before|) == name
  {
    var line := before + (name + "\"" + after);
    assert line[|before|..] == name + "\"" + after;
    NotWithoutMarker(name, "\"", '"');
    assert name + "\""[..0] == name;
    FindAfter(name, "\"", after);
  }

  lemma NameIsFound(rest: string)
    ensures Find("\n" + DISPOSITION + "name=\"" + rest, "name=\"", 0) == Some(1 + |DISPOSITION|)
  {
    var x := "\n" + DISPOSITION;
    NotWithoutMarker(x + "name=", "name=\"", '"');
    assert "name=\""[..5] == "name=";
    FindAfter(x, "name=\"", rest);
  }

  lemma NoFileNameInFront(name: string)
    requires '"' !in name && !EndsWith(name, "filename=")
    ensures !Contains("\n" + DISPOSITION + "name=\"" + (name + "\""), "filename=\"")
  {
    var p, x := "filename=\"", "\n" + DISPOSITION + "name=";
    assert p[..9] == "filename=";
    assert x[|x| - 9] == 't';
    OneMarker(x, p, '"');
    OneMarker(name, p, '"');
    CutBehind(x + ['"'], name + ['"'], p, '"');
    assert "\n" + DISPOSITION + "name=\"" + (name + "\"") == (x + ['"']) + (name + ['"']);
  }

  lemma FileNameIsFound(name: string, fileName: string)
    requires '"' !in name && !EndsWith(name, "filename=")
    ensures var x := "\n" + DISPOSITION + "name=\"" + (name + "\"");
            Find(x + "; " + "filename=\"" + (fileName + "\""), "filename=\"", 0) == Some(|x| + 2)
  {
    var x, p := "\n" + DISPOSITION + "name=\"" + (name + "\""), "filename=\"";
    NoFileNameInFront(name);
    NotWithoutMarker("; filename=", p, '"');
    CutBehind(x, "; filename=", p, '"');
    assert p[..9] == "filename=";
    assert (x + "; ") + p[..9] == x + "; filename=";
    FindAfter(x + "; ", p, fileName + "\"");
  }

  /** A name that ends like this, with its closing quote, is taken for the start of a file name. */
  predicate LooksLikeFile(part: Part) {
    EndsWith(part.name, "filename=")
  }

  /** Whether the parser takes a printed part for a file. */
  predicate IsFile(part: Part) {
    part.FilePart? || LooksLikeFile(part)
  }

  /** Where the parser files a part: a field under its name, and a file under what follows the first
      `filename="` up to the next quote. */
  function Key(part: Part): string {
    if LooksLikeFile(part) then (if part.FilePart? then "; filename=" else "")
    else if part.FilePart? then part.fileName
    else part.name
  }

  function EntryOf(part: Part): Entry {
    if IsFile(part) then File(part.name, Key(part), Kept(part.content)) else Field(part.name, Kept(part.content))
  }

  const BEFORE_NAME: string := "\n" + DISPOSITION + "name=\""

  lemma ReadFieldLine(name: string)
    requires '"' !in name && !EndsWith(name, "filename=")
    ensures var line := BEFORE_NAME + (name + "\"");
            && Find(line, "name=\"", 0) == Some(|BEFORE_NAME| - 6) && Quoted(line, |BEFORE_NAME|) == name
            && Find(line, "filename=\"", 0) == None
  {
    hide Find, Contains, Quoted, EndsWith;
    NameIsFound(name + "\"");
    QuotedName(BEFORE_NAME, name, "");
    NoFileNameInFront(name);
    FindAbsent(BEFORE_NAME + (name + "\""), "filename=\"");
    assert name + "\"" + "" == name + "\"";
  }

  lemma ReadFileLine(name: string, fileName: string)
    requires '"' !in name && !EndsWith(name, "filename=") && '"' !in fileName
    ensures var line := BEFORE_NAME + (name + "\"" + ("; filename=\"" + (fileName + "\"")));
            var f := |BEFORE_NAME| + |name| + 3;
            && Find(line, "name=\"", 0) == Some(|BEFORE_NAME| - 6) && Quoted(line, |BEFORE_NAME|) == name
            && Find(line, "filename=\"", 0) == Some(f) && f + 10 <= |line| && Quoted(line, f + 10) == fileName
  {
    hide Find, Contains, Quoted, EndsWith;
    var after := "; filename=\"" + (fileName + "\"");
    var front := BEFORE_NAME + (name + "\"");
    var line := BEFORE_NAME + (name + "\"" + after);
    NameIsFound(name + "\"" + after);
    QuotedName(BEFORE_NAME, name, after);
    FileNameIsFound(name, fileName);
    assert line == front + "; " + "filename=\"" + (fileName + "\"");
    var x := front + "; " + "filename=\"";
    assert fileName + "\"" + "" == fileName + "\"";
    QuotedName(x, fileName, "");
  }

  /** The quote that closes the name is taken for the one that opens a file name. */
  lemma ReadMisleadingLine(name: string, after: string)
    requires '"' !in name && EndsWith(name, "filename=")
    ensures var line := BEFORE_NAME + (name + "\"" + after);
            var f := |BEFORE_NAME| + |name| - 9;
            && Find(line, "name=\"", 0) == Some(|BEFORE_NAME| - 6) && Quoted(line, |BEFORE_NAME|) == name
            && Find(line, "filename=\"", 0) == Some(f) && f + 10 <= |line| && line[f + 10..] == after
  {
    var p, start, front := "filename=\"", "\n" + DISPOSITION + "name=", name[..|name| - 9];
    NameIsFound(name + "\"" + after);
    QuotedName(BEFORE_NAME, name, after);
    assert start[|start| - 9] == 't' && BEFORE_NAME == start + ['"'];
    assert p[..9] == "filename=";
    OneMarker(start, p, '"');
    NotWithoutMarker(name, p, '"');
    CutBehind(BEFORE_NAME, name, p, '"');
    assert name == front + "filename=";
    hide Find, Contains, Quoted;
    MisleadingShape(front, after);
    FindAfter(BEFORE_NAME + front, p, after);
  }

  lemma MisleadingShape(front: string, after: string)
    ensures var line := BEFORE_NAME + ((front + "filename=") + "\"" + after);
            && line == (BEFORE_NAME + front) + "filename=\"" + after
            && line[|BEFORE_NAME| + |front| + 10..] == after
    ensures (BEFORE_NAME + front) + "filename=" == BEFORE_NAME + (front + "filename=")
  {
    var line := BEFORE_NAME + ((front + "filename=") + "\"" + after);
    assert "filename=\"" == "filename=" + "\"";
    assert line == (BEFORE_NAME + front + "filename=\"") + after;
  }

  lemma QuotedRest(line: string, at: nat, value: string, more: string)
    requires at <= |line| && line[at..] == value + "\"" + more && '"' !in value
    ensures Quoted(line, at) == value
  {
    QuotedName("", value, more);
    assert "" + (value + "\"" + more) == value + "\"" + more;
    hide Find;
  }

  lemma PartByBlankLine(head: string, content: string, tail: string)
    requires Find(head + BLANK_LINE + (content + tail), BLANK_LINE, 0) == Some(|head|)
    requires tail == "" || CRLF <= tail
    ensures var part := head + BLANK_LINE + (content + tail);
            PartHead(part) == head && PartBody(part) == Ok(Kept(content))
  {
    var part := head + BLANK_LINE + (content + tail);
    KeptBeforeTail(content, tail);
    hide Find, Kept;
    assert part[..|head|] == head && part[|head| + 4..] == content + tail;
  }

  lemma ReadPrintedLine(part: Part, content: string)
    requires '"' !in part.name && (part.FilePart? ==> '"' !in part.fileName)
    ensures ReadEntry("\n" + Disposition(part), content)
         == Ok(if IsFile(part) then File(part.name, Key(part), content) else Field(part.name, content))
  {
    DispositionLine(part);
    if LooksLikeFile(part) {
      ReadMisleadingPart(part, content);
    } else {
      match part
      case FieldPart(name, _) => ReadFieldLine(name);
      case FilePart(name, fileName, _, _) => ReadFileLine(name, fileName);
      hide Disposition, Find, Quoted, EndsWith;
    }
  }

  lemma FileByLine(line: string, content: string, at: nat, f: nat)
    requires Find(line, "name=\"", 0) == Some(at) && at + 6 <= |line|
    requires Find(line, "filename=\"", 0) == Some(f) && f + 10 <= |line|
    ensures ReadEntry(line, content) == Ok(File(Quoted(line, at + 6), Quoted(line, f + 10), content))
  {
    hide Find, Quoted;
  }

  lemma ReadMisleadingField(name: string, content: string)
    requires '"' !in name && EndsWith(name, "filename=")
    ensures ReadEntry(BEFORE_NAME + (name + "\""), content) == Ok(File(name, "", content))
  {
    var line := BEFORE_NAME + (name + "\"");
    ReadMisleadingLine(name, "");
    QuotedEnd(line, |line|);
    hide Find, Quoted, EndsWith, ReadEntry;
    assert name + "\"" + "" == name + "\"";
    FileByLine(line, content, |BEFORE_NAME| - 6, |BEFORE_NAME| + |name| - 9);
  }

  lemma QuotedEnd(line: string, at: nat)
    requires at == |line|
    ensures Quoted(line, at) == ""
  {
  }

  lemma ReadMisleadingFile(name: string, fileName: string, content: string)
    requires '"' !in name && EndsWith(name, "filename=")
    ensures ReadEntry(BEFORE_NAME + (name + "\"" + ("; filename=\"" + (fileName + "\""))), content)
         == Ok(File(name, "; filename=", content))
  {
    var after := "; filename=\"" + (fileName + "\"");
    var line := BEFORE_NAME + (name + "\"" + after);
    ReadMisleadingLine(name, after);
    hide Find, Quoted, EndsWith, ReadEntry;
    assert "; filename=\"" == "; filename=" + "\"";
    QuotedRest(line, |BEFORE_NAME| + |name| + 1, "; filename=", fileName + "\"");
    FileByLine(line, content, |BEFORE_NAME| - 6, |BEFORE_NAME| + |name| - 9);
  }

  lemma ReadMisleadingPart(part: Part, content: string)
    requires '"' !in part.name && LooksLikeFile(part)
    ensures ReadEntry("\n" + Disposition(part), content) == Ok(File(part.name, Key(part), content))
  {
    DispositionLine(part);
    hide Disposition, ReadEntry, EndsWith;
    match part
    case FieldPart(name, _) => ReadMisleadingField(name, content);
    case FilePart(name, fileName, _, _) => ReadMisleadingFile(name, fileName, content);
  }

  lemma DispositionLine(part: Part)
    ensures "\n" + Disposition(part)
         == match part
            case FieldPart(name, _) => BEFORE_NAME + (name + "\"")
            case FilePart(name, fileName, _, _) => BEFORE_NAME + (name + "\"" + ("; filename=\"" + (fileName + "\"")))
  {
  }

  /** Reading a printed part, followed by nothing or by a line end. */
  lemma {:induction false} ReadPrintedPart(part: Part, tail: string)
    requires Wellformed(part) && (tail == "" || CRLF <= tail)
    ensures ReadPart("\n" + PartText(part) + tail) == Ok(EntryOf(part))
  {
    var head := "\n" + PartHeader(part);
    HeaderHasNoBlankLine(part);
    FirstBlankLineAfter(head, part.content + tail);
    PartByBlankLine(head, part.content, tail);
    ReadPrintedLine(part, Kept(part.content));
    PartTextShape(part, tail);
    hide Find, Contains, EndsWith, PartHeader, PartText, PartBody, PartHead, Kept, Line, ReadEntry, Disposition,
      Wellformed;
  }

  /** A printed field is read as a field exactly when its name does not end in `filename=`. */
  lemma {:induction false} FieldIsReadAsFieldIff(part: Part, tail: string)
    requires Wellformed(part) && part.FieldPart? && (tail == "" || CRLF <= tail)
    ensures ReadPart("\n" + PartText(part) + tail).Ok?
    ensures ReadPart("\n" + PartText(part) + tail).value.Field? <==> !EndsWith(part.name, "filename=")
  {
    ReadPrintedPart(part, tail);
    hide ReadPart, PartText, Wellformed;
  }

  lemma PartTextShape(part: Part, tail: string)
    ensures "\n" + PartText(part) + tail == "\n" + PartHeader(part) + BLANK_LINE + (part.content + tail)
  {
    hide PartHeader;
  }

  // ---------------------------------------------------------------- a whole form

  /** The map of the fields, or of the files, of a form: later parts replace earlier ones. Files are
      found under their file name. */
  function MapOf(parts: seq<Part>, files: bool, m: Fields): Fields {
    if parts == [] then m
    else MapOf(parts[1..], files, if IsFile(parts[0]) == files then m[Key(parts[0]) := Kept(parts[0].content)] else m)
  }

  predicate SameKind(a: Part, b: Part) {
    IsFile(a) == IsFile(b)
  }

  predicate Wins(parts: seq<Part>, i: nat) {
    i < |parts| && forall j :: i < j < |parts| && SameKind(parts[j], parts[i]) ==> Key(parts[j]) != Key(parts[i])
  }

  predicate KeptIn(part: Part, m: Fields) {
    Key(part) in m && m[Key(part)] == Kept(part.content)
  }

  lemma {:induction false} MapIsLastWins(parts: seq<Part>, files: bool, m: Fields)
    ensures forall i: nat :: Wins(parts, i) && IsFile(parts[i]) == files ==> KeptIn(parts[i], MapOf(parts, files, m))
  {
    hide Kept, Key, IsFile;
    if parts != [] {
      var n := if IsFile(parts[0]) == files then m[Key(parts[0]) := Kept(parts[0].content)] else m;
      MapIsLastWins(parts[1..], files, n);
      forall i: nat | Wins(parts, i) && IsFile(parts[i]) == files ensures KeptIn(parts[i], MapOf(parts, files, m)) {
        if i > 0 {
          assert Wins(parts[1..], i - 1);
        } else {
          MapKeepsOthers(parts[1..], files, n, Key(parts[0]));
        }
      }
    }
  }

  lemma {:induction false} MapKeepsOthers(parts: seq<Part>, files: bool, m: Fields, k: string)
    requires forall i :: 0 <= i < |parts| && IsFile(parts[i]) == files ==> Key(parts[i]) != k
    ensures k in MapOf(parts, files, m) <==> k in m
    ensures k in m ==> MapOf(parts, files, m)[k] == m[k]
  {
    hide Kept, Key, IsFile;
    if parts != [] {
      MapKeepsOthers(parts[1..], files,
                     if IsFile(parts[0]) == files then m[Key(parts[0]) := Kept(parts[0].content)] else m, k);
    }
  }

  function Block(part: Part): string {
    "\n" + PartText(part) + "\r\n"
  }

  /** The text between delimiters, when `end` follows the last part and other blocks follow that. */
  function Blocks(parts: seq<Part>, end: string, more: seq<string>): seq<string>
    requires parts != []
  {
    if |parts| == 1 then [Block(parts[0]) + end] + more
    else [Block(parts[0])] + Blocks(parts[1..], end, more)
  }

  lemma {:induction false} BlockAt(parts: seq<Part>, end: string, more: seq<string>, i: nat)
    requires parts != [] && i < |parts| + |more|
    ensures |Blocks(parts, end, more)| == |parts| + |more|
    ensures Blocks(parts, end, more)[i]
         == if i < |parts| - 1 then Block(parts[i])
            else if i == |parts| - 1 then Block(parts[i]) + end
            else more[i - |parts|]
  {
    hide Block;
    if |parts| > 1 {
      BlockAt(parts[1..], end, more, if i == 0 then 0 else i - 1);
    }
  }

  lemma FormStep(parts: seq<Part>, b: string)
    requires parts != []
    ensures FormBody(parts, b) == Delimiter(b) + (Block(parts[0]) + FormBody(parts[1..], b))
  {
    hide PartText;
    assert "--" + b + "\r\n" == Delimiter(b) + "\n";
  }

  lemma {:induction false} FormIsJoined(parts: seq<Part>, b: string, end: string, more: seq<string>)
    requires parts != [] && "--" + b + "--\r\n" == end + Joined(more, Delimiter(b))
    ensures FormBody(parts, b) == Joined(Blocks(parts, end, more), Delimiter(b))
  {
    FormStep(parts, b);
    var p, block := Delimiter(b), Block(parts[0]);
    hide Block, Delimiter;
    if |parts| == 1 {
      assert ([block + end] + more)[1..] == more;
      Associative(block, end, Joined(more, p));
    } else {
      FormIsJoined(parts[1..], b, end, more);
      assert ([block] + Blocks(parts[1..], end, more))[1..] == Blocks(parts[1..], end, more);
    }
  }

  predicate OnlyDashes(b: string) {
    forall c :: c in b ==> c == '-'
  }

  lemma {:induction false} DashAt(b: string, i: nat)
    requires b + "--" == "--" + b && i < |b|
    ensures b[i] == '-'
  {
    assert b[i] == (b + "--")[i] == ("--" + b)[i];
    if i >= 2 {
      DashAt(b, i - 2);
    }
  }

  lemma DashesIff(b: string)
    ensures b + "--" == "--" + b <==> OnlyDashes(b)
  {
    if b + "--" == "--" + b {
      forall i | 0 <= i < |b| ensures b[i] == '-' {
        DashAt(b, i);
      }
    } else if OnlyDashes(b) {
      forall i | 0 <= i < |b| + 2 ensures (b + "--")[i] == ("--" + b)[i] {
        assert i < |b| ==> b[i] in b;
        assert i >= 2 ==> b[i - 2] in b;
      }
    }
  }

  lemma DelimiterEnds(b: string)
    requires '\r' !in b
    ensures EndsOnly(Delimiter(b), '\r') && Delimiter(b)[0] == '-' && Delimiter(b)[..|Delimiter(b)| - 1] == "--" + b
  {
  }

  /** The closing delimiter holds the delimiter exactly when the boundary is nothing but dashes. */
  lemma {:induction false} CloseIsCleanIff(b: string)
    requires '\r' !in b
    ensures Contains("--" + b + "--\r\n", Delimiter(b)) <==> OnlyDashes(b)
  {
    var p, u := Delimiter(b), "--" + b + "--";
    DelimiterEnds(b);
    DashesIff(b);
    OneMarker(u, p, '\r');
    NotWithoutMarker("\n", p, '\r');
    CutBehind(u + ['\r'], "\n", p, '\r');
    hide Contains, Delimiter;
    assert u[2..] == b + "--";
    assert "--" + b + "--\r\n" == u + ['\r'] + "\n";
  }

  lemma CleanLines(text: string, rest: string, p: string)
    requires EndsOnly(p, '\r') && p[0] == '-' && !Contains(text + "\r", p) && !Contains(rest, p)
    ensures !Contains("\n" + text + "\r\n" + rest, p)
  {
    hide Contains;
    var u := text + "\r";
    DropFirst('\n', u, p);
    DropFirst('\n', rest, p);
    CutBehind(['\n'] + u, ['\n'] + rest, p, '\r');
    assert "\n" + text + "\r\n" + rest == (['\n'] + u) + (['\n'] + rest);
  }

  lemma BlockIsClean(part: Part, b: string, rest: string)
    requires Sendable(part, b) && '\r' !in b && !Contains(rest, Delimiter(b))
    ensures !Contains(Block(part) + rest, Delimiter(b))
  {
    DelimiterEnds(b);
    hide Contains, Delimiter, PartText, Wellformed;
    CleanLines(PartText(part), rest, Delimiter(b));
  }

  /** The text after the last part either is one clean piece, or is cut once more by a delimiter. */
  predicate Closes(end: string, more: seq<string>, b: string) {
    && |end| >= 2 && "--" + b + "--\r\n" == end + Joined(more, Delimiter(b))
    && (more == [] || more == ["\n"])
    && !Contains(if more == [] then end else end + ("--" + b), Delimiter(b))
  }

  lemma BlocksAreClean(parts: seq<Part>, b: string, end: string, more: seq<string>)
    requires parts != [] && '\r' !in b && AllSendable(parts, b) && Closes(end, more, b)
    ensures CleanBlocks(Blocks(parts, end, more), Delimiter(b))
    ensures forall i :: 0 <= i < |Blocks(parts, end, more)| - 1 ==> |Blocks(parts, end, more)[i]| >= 2
  {
    var p, blocks := Delimiter(b), Blocks(parts, end, more);
    DelimiterEnds(b);
    BlockAt(parts, end, more, 0);
    forall i | 0 <= i < |blocks|
      ensures !Contains(if i + 1 < |blocks| then blocks[i] + p[..|p| - 1] else blocks[i], p)
      ensures i < |blocks| - 1 ==> |blocks[i]| >= 2
    {
      BlockAt(parts, end, more, i);
      BlockCleanAt(parts, b, end, more, i);
    }
  }

  lemma BlockCleanAt(parts: seq<Part>, b: string, end: string, more: seq<string>, i: nat)
    requires parts != [] && '\r' !in b && AllSendable(parts, b) && Closes(end, more, b) && i < |parts| + |more|
    ensures var block := Blocks(parts, end, more);
            |block| == |parts| + |more|
            && !Contains(if i + 1 < |block| then block[i] + ("--" + b) else block[i], Delimiter(b))
  {
    DelimiterEnds(b);
    BlockAt(parts, end, more, i);
    NotWithoutMarker("--" + b, Delimiter(b), '\r');
    NotWithoutMarker("\n", Delimiter(b), '\r');
    hide Contains, Delimiter, Blocks, Block, Sendable, Joined;
    if i < |parts| - 1 {
      BlockIsClean(parts[i], b, "--" + b);
    } else if i == |parts| - 1 {
      BlockIsClean(parts[i], b, if more == [] then end else end + ("--" + b));
      Associative(Block(parts[i]), end, "--" + b);
    }
  }

  lemma ClipOf(text: string, end: string)
    requires end == "" || |end| >= 2
    ensures Clip("\n" + text + "\r\n" + end) == "\n" + text + (if end == "" then "" else CRLF + end[..|end| - 2])
  {
  }

  lemma ReadBlock(part: Part, end: string)
    requires Wellformed(part) && (end == "" || |end| >= 2)
    ensures ReadPart(Clip(Block(part) + end)) == Ok(EntryOf(part))
  {
    ReadPrintedPart(part, if end == "" then "" else CRLF + end[..|end| - 2]);
    ClipOf(PartText(part), end);
    hide PartText, ReadPart, Wellformed, EntryOf, Clip;
  }

  lemma {:induction false} ReadBlocks(parts: seq<Part>, end: string, more: seq<string>, fields: Fields, files: Fields)
    requires parts != [] && |end| >= 2 && forall i :: 0 <= i < |parts| ==> Wellformed(parts[i])
    ensures ReadParts(Clipped(Blocks(parts, end, more)), fields, files)
         == ReadParts(Clipped(more), MapOf(parts, false, fields), MapOf(parts, true, files))
  {
    var part := parts[0];
    var f := if IsFile(part) then fields else fields[Key(part) := Kept(part.content)];
    var g := if IsFile(part) then files[Key(part) := Kept(part.content)] else files;
    hide Block, Clip, ReadPart, Wellformed, Kept, Key, IsFile;
    if |parts| == 1 {
      ReadBlock(part, end);
      ReadNext([Block(part) + end] + more, part, fields, files);
      assert ([Block(part) + end] + more)[1..] == more && parts[1..] == [];
    } else {
      ReadBlock(part, "");
      assert Block(part) + "" == Block(part);
      ReadNext([Block(part)] + Blocks(parts[1..], end, more), part, fields, files);
      assert ([Block(part)] + Blocks(parts[1..], end, more))[1..] == Blocks(parts[1..], end, more);
      ReadBlocks(parts[1..], end, more, f, g);
    }
  }

  lemma ReadNext(blocks: seq<string>, part: Part, fields: Fields, files: Fields)
    requires blocks != [] && ReadPart(Clip(blocks[0])) == Ok(EntryOf(part))
    ensures ReadParts(Clipped(blocks), fields, files)
         == ReadParts(Clipped(blocks[1..]),
                      if IsFile(part) then fields else fields[Key(part) := Kept(part.content)],
                      if IsFile(part) then files[Key(part) := Kept(part.content)] else files)
  {
    hide Clip, ReadPart, Kept, LooksLikeFile;
    assert Clipped(blocks)[1..] == Clipped(blocks[1..]);
  }

  lemma SplitForm(parts: seq<Part>, b: string, end: string, more: seq<string>)
    requires parts != [] && '\r' !in b && AllSendable(parts, b) && Closes(end, more, b)
    ensures SplitParts(FormBody(parts, b), Delimiter(b), 0) == Clipped(Blocks(parts, end, more))
  {
    FormIsJoined(parts, b, end, more);
    BlocksAreClean(parts, b, end, more);
    SplitJoined(Blocks(parts, end, more), Delimiter(b));
  }

  lemma ReadSplitForm(parts: seq<Part>, b: string, end: string, more: seq<string>, files: Fields)
    requires parts != [] && '\r' !in b && AllSendable(parts, b) && Closes(end, more, b)
    ensures ReadParts(SplitParts(FormBody(parts, b), Delimiter(b), 0), map[], files)
         == ReadParts(Clipped(more), MapOf(parts, false, map[]), MapOf(parts, true, files))
  {
    SplitForm(parts, b, end, more);
    ReadBlocks(parts, end, more, map[], files);
  }

  lemma DashesClose(b: string)
    requires '\r' !in b && OnlyDashes(b)
    ensures Closes("--", ["\n"], b)
  {
    DashesIff(b);
    DelimiterEnds(b);
    NotWithoutMarker("--" + ("--" + b), Delimiter(b), '\r');
    hide Contains;
    assert Joined(["\n"], Delimiter(b)) == Delimiter(b) + "\n" by {
      assert ["\n"][1..] == [];
    }
    assert "--" + b + "--\r\n" == "--" + (b + "--") + "\r\n" == "--" + (Delimiter(b) + "\n");
  }

  lemma CleanlyClosed(b: string)
    requires '\r' !in b && !OnlyDashes(b)
    ensures Closes("--" + b + "--\r\n", [], b)
  {
    CloseIsCleanIff(b);
    hide Contains;
  }

  lemma StrayPart(fields: Fields, files: Fields)
    ensures ReadParts(["\n"], fields, files) == (fields, files, Err(OutOfRange))
  {
    NotWithoutMarker("\n", "\r", '\r');
    assert Find("\n", BLANK_LINE, 0) == None;
  }

  /** A form without parts is only a closing delimiter, cut like any text when it is all dashes. */
  lemma SplitEmptyForm(b: string)
    requires '\r' !in b
    ensures SplitParts(FormBody([], b), Delimiter(b), 0) == if OnlyDashes(b) then ["\n"] else []
  {
    var p, body := Delimiter(b), "--" + b + "--\r\n";
    CloseIsCleanIff(b);
    DelimiterEnds(b);
    if OnlyDashes(b) {
      DashesIff(b);
      NotWithoutMarker("--" + ("--" + b), p, '\r');
      assert body == "--" + (b + "--") + "\r\n" == "--" + p + "\n";
      hide Contains;
      FindAfter("--", p, "\n");
      SplitTail("--", "\n", p);
    } else {
      FindAbsent(body, p);
      SplitNone(body, p, 0);
    }
  }

  lemma SplitTail(before: string, after: string, p: string)
    requires p != "" && Find(before + p + after, p, 0) == Some(|before|) && |after| < |p| && |after| < 2
    ensures SplitParts(before + p + after, p, 0) == [after]
  {
    var body := before + p + after;
    SplitStep(body, p, 0, |before|);
    FindIsFirst(body, p, |before| + |p|);
    NothingToSplit(body, p);
    hide Find, SplitParts;
    assert body[|before| + |p|..] == after;
  }

  lemma ReadWithItsBoundary(r: Request, parts: seq<Part>, b: string)
    requires '\r' !in b && AllSendable(parts, b) && r.body == FormBody(parts, b)
    requires IsMultipart(r.headers) && |r.headers["Content-Type"]| >= 19
    requires Boundary(r.headers["Content-Type"]) == Delimiter(b)
    ensures var fields, files := MapOf(parts, false, map[]), MapOf(parts, true, r.fileUploads);
            ReadForm(r) == if OnlyDashes(b) then (r.(fileUploads := files), Err(OutOfRange))
                           else (r.(formFields := fields, fileUploads := files), Ok(()))
  {
    var fields, files := MapOf(parts, false, map[]), MapOf(parts, true, r.fileUploads);
    StrayPart(fields, files);
    if parts == [] {
      SplitEmptyForm(b);
    } else if OnlyDashes(b) {
      DashesClose(b);
      ReadSplitForm(parts, b, "--", ["\n"], r.fileUploads);
      ClipShort();
    } else {
      CleanlyClosed(b);
      ReadSplitForm(parts, b, "--" + b + "--\r\n", [], r.fileUploads);
    }
    hide SplitParts, ReadPart, IsMultipart, Boundary, FormBody, OnlyDashes, Sendable, Closes, Delimiter;
  }

  lemma ReadWithAnotherBoundary(r: Request, t: string)
    requires IsMultipart(r.headers) && |r.headers["Content-Type"]| >= 19
    requires Boundary(r.headers["Content-Type"]) == Delimiter(t) && !Contains(r.body, Delimiter(t))
    ensures ReadForm(r) == (r.(formFields := map[]), Ok(()))
  {
    FindAbsent(r.body, Delimiter(t));
    SplitNone(r.body, Delimiter(t), 0);
    hide SplitParts, IsMultipart, Boundary, Delimiter, Contains;
  }

  /** The form round trip, for a form printed with boundary b under a Content-Type whose parameter text
      is t. When t is b, the form comes back as its last-wins maps of fields and of files, each content
      up to its first line end, unless the boundary is nothing but dashes: then the closing delimiter
      is split off as a part without a header, and that throws. Any other t, such as b in quotes,
      finds no part at all. */
  lemma {:induction false} FormRoundTrip(r: Request, parts: seq<Part>, b: string, t: string)
    requires '\r' !in b && AllSendable(parts, b) && r.body == FormBody(parts, b)
    requires IsMultipart(r.headers) && |r.headers["Content-Type"]| >= 19
    requires Boundary(r.headers["Content-Type"]) == Delimiter(t)
    requires t == b || !Contains(FormBody(parts, b), Delimiter(t))
    ensures var fields, files := MapOf(parts, false, map[]), MapOf(parts, true, r.fileUploads);
            ReadForm(r) == if t != b then (r.(formFields := map[]), Ok(()))
                           else if OnlyDashes(b) then (r.(fileUploads := files), Err(OutOfRange))
                           else (r.(formFields := fields, fileUploads := files), Ok(()))
  {
    if t == b {
      ReadWithItsBoundary(r, parts, b);
    } else {
      ReadWithAnotherBoundary(r, t);
    }
  }

  lemma ClipShort()
    ensures Clipped(["\n"]) == ["\n"]
  {
    assert ["\n"][1..] == [];
  }

  /** Cutting a header line and its line end off. */
  lemma DelimiterInFirstLine(line: string, rest: string, b: string)
    requires '\r' !in b && '\r' !in line
    ensures Contains(line + (CRLF + rest), Delimiter(b)) <==> EndsWith(line, "--" + b) || Contains(rest, Delimiter(b))
  {
    var p := Delimiter(b);
    DelimiterEnds(b);
    OneMarker(line, p, '\r');
    DropFirst('\n', rest, p);
    CutBehind(line + ['\r'], ['\n'] + rest, p, '\r');
    hide Contains, Delimiter;
    assert line + (CRLF + rest) == (line + ['\r']) + (['\n'] + rest);
  }

  lemma PartLines(part: Part)
    ensures var c := CRLF + (CRLF + (part.content + "\r"));
            var more := if part.FilePart? then CRLF + ("Content-Type: " + part.contentType + c) else c;
            PartText(part) + "\r" == Disposition(part) + more
  {
    hide Disposition;
    assert BLANK_LINE == CRLF + CRLF && "\r\nContent-Type: " == CRLF + "Content-Type: ";
  }

  /** The boundary as a parameter value: as it is, or in quotes. */
  function Parameter(b: string, quoted: bool): string {
    if quoted then "\"" + b + "\"" else b
  }

  /** Only the content can hold the delimiter, or the type of a file can end in it. */
  lemma {:induction false} DelimiterOnlyInContent(part: Part, b: string, quoted: bool)
    requires Wellformed(part) && '\r' !in b && '"' !in b
    ensures var t := Parameter(b, quoted);
            Contains(PartText(part) + "\r", Delimiter(t)) <==>
              || Contains(part.content + "\r", Delimiter(t))
              || (part.FilePart? && EndsWith("Content-Type: " + part.contentType, "--" + t))
  {
    var t, d, c := Parameter(b, quoted), Disposition(part), part.content + "\r";
    DispositionShape(part);
    if quoted {
      QuotesAreNotTheEnd(part, b);
    } else {
      QuoteIsNotTheEnd(d, b);
    }
    PartLines(part);
    DelimiterInFirstLine("", c, t);
    assert "" + (CRLF + c) == CRLF + c;
    hide Contains, Delimiter, Disposition, PartText, Quotable, Parameter, EndsWith;
    match part
    case FieldPart(_, _) =>
      DelimiterInFirstLine(d, CRLF + c, t);
    case FilePart(_, _, contentType, _) =>
      var line := "Content-Type: " + contentType;
      DelimiterInFirstLine(line, CRLF + c, t);
      DelimiterInFirstLine(d, line + (CRLF + (CRLF + c)), t);
  }

  lemma LastQuoteIn(s: string, x: string, n: string)
    requires '"' !in n && s == x + "\"" + n + "\""
    ensures |x| < |s| - 1 && s[|x|] == '"' && s[..|x|] == x && s[|x| + 1..|s| - 1] == n
    ensures forall k :: |x| < k < |s| - 1 ==> s[k] != '"'
  {
    assert forall k :: |x| < k < |s| - 1 ==> s[k] == n[k - |x| - 1];
  }

  /** What stands in the last quotes of a text is told by the text. */
  lemma LastQuotes(x: string, n: string, y: string, b: string)
    requires '"' !in n && '"' !in b && x + "\"" + n + "\"" == y + "\"" + b + "\""
    ensures x == y && n == b
  {
    var s := x + "\"" + n + "\"";
    LastQuoteIn(s, x, n);
    LastQuoteIn(s, y, b);
    assert |x| == |y|;
  }

  lemma QuotesAreNotTheEnd(part: Part, b: string)
    requires '"' !in b && '"' !in part.name && (part.FilePart? ==> '"' !in part.fileName)
    ensures !EndsWith(Disposition(part), "--" + ("\"" + b + "\""))
  {
    var d, p := Disposition(part), "--" + ("\"" + b + "\"");
    var before, n := DispositionEnd(part);
    hide Disposition;
    if EndsWith(d, p) {
      var y := d[..|d| - |p|] + "--";
      assert d == y + "\"" + b + "\"";
      LastQuotes(before, n, y, b);
    }
  }

  lemma DispositionEnd(part: Part) returns (before: string, n: string)
    requires '"' !in part.name && (part.FilePart? ==> '"' !in part.fileName)
    ensures Disposition(part) == before + "\"" + n + "\"" && '"' !in n && before != "" && before[|before| - 1] == '='
  {
    match part
    case FieldPart(name, _) =>
      before, n := DISPOSITION + "name=", name;
      assert "name=\"" == "name=" + "\"";
    case FilePart(name, fileName, _, _) =>
      before, n := DISPOSITION + "name=\"" + (name + "\"" + "; filename="), fileName;
      assert "; filename=\"" == "; filename=" + "\"";
  }

  lemma QuoteIsNotTheEnd(d: string, b: string)
    requires d != "" && d[|d| - 1] == '"' && '"' !in b
    ensures !EndsWith(d, "--" + b)
  {
  }
}
