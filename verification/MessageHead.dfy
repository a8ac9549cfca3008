/** Printed HTTP messages (section 2.1 of RFC 9112) and what the two independent scans of the parser,
    the getline loop and the search for the blank line, make of them. */
module MessageHead {
  import opened Text
  import opened HttpRequest

  datatype Header = Header(name: string, value: string)

  // ---------------------------------------------------------------- two scans of one text

  /** Just past the first LF-terminated line that is a lone carriage return, reading lines of `rest`,
      which starts at offset `at` of the whole text. */
  function BlankLineEnd(rest: string, at: nat): Option<nat>
    decreases |rest|
  {
    var i := IndexOf(rest, '\n');
    if i == |rest| then None
    else if rest[..i] == "\r" then Some(at + i + 1)
    else BlankLineEnd(rest[i + 1..], at + i + 1)
  }

  /** Where the header loop of the parser ends the head: the request line is read first. */
  function HeadEnd(text: string): Option<nat> {
    var i := IndexOf(text, '\n');
    if i == |text| then None else BlankLineEnd(text[i + 1..], i + 1)
  }

  /** A lone carriage return on a line of its own, with the line feed before it. */
  const LONE_CR: string := "\n\r\n"

  lemma OccursChars(text: string, p: nat)
    ensures OccursAt(text, BLANK_LINE, p) <==>
              p + 4 <= |text| && text[p] == '\r' && text[p + 1] == '\n' && text[p + 2] == '\r' && text[p + 3] == '\n'
  {
    if p + 4 <= |text| {
      assert text[p..p + 4] == [text[p], text[p + 1], text[p + 2], text[p + 3]];
    }
  }

  lemma LoneCrChars(text: string, k: nat)
    ensures OccursAt(text, LONE_CR, k) <==>
              k + 3 <= |text| && text[k] == '\n' && text[k + 1] == '\r' && text[k + 2] == '\n'
  {
    if k + 3 <= |text| {
      assert text[k..k + 3] == [text[k], text[k + 1], text[k + 2]];
    }
  }

  function Past(found: Option<nat>, k: nat): Option<nat> {
    match found
    case Some(i) => Some(i + k)
    case None => None
  }

  lemma LineSlices(text: string, at: nat, i: nat)
    requires at + i <= |text|
    ensures text[at..][..i] == text[at..at + i]
    ensures at + i < |text| ==> text[at..][i + 1..] == text[at + i + 1..] && text[at..][i] == text[at + i]
  {
  }

  lemma LineInText(text: string, at: nat)
    requires at <= |text|
    ensures var i := IndexOf(text[at..], '\n');
            && at + i <= |text| && '\n' !in text[at..at + i] && (at + i < |text| ==> text[at + i] == '\n')
            && BlankLineEnd(text[at..], at) == if at + i == |text| then None
                                              else if text[at..at + i] == "\r" then Some(at + i + 1)
                                              else BlankLineEnd(text[at + i + 1..], at + i + 1)
  {
    hide IndexOf;
    LineSlices(text, at, IndexOf(text[at..], '\n'));
  }

  lemma LastLineHasNoLoneCr(text: string, at: nat)
    requires 0 < at <= |text| && '\n' !in text[at..]
    ensures Find(text, LONE_CR, at - 1) == None
  {
    forall j: nat | at - 1 <= j ensures !OccursAt(text, LONE_CR, j) {
      LoneCrChars(text, j);
      assert j + 3 <= |text| ==> text[j + 2] == text[at..][j + 2 - at];
    }
    FindNothing(text, LONE_CR, at - 1);
  }

  /** The line of length i that starts at `at` is a lone carriage return exactly when there is one at
      the line feed before, and otherwise there is none up to the next line feed. */
  lemma LineAndLoneCr(text: string, at: nat, i: nat)
    requires 0 < at && at + i < |text| && text[at - 1] == text[at + i] == '\n' && '\n' !in text[at..at + i]
    ensures text[at..at + i] == "\r" ==> i == 1 && Find(text, LONE_CR, at - 1) == Some(at - 1)
    ensures text[at..at + i] != "\r" ==> Find(text, LONE_CR, at - 1) == Find(text, LONE_CR, at + i)
  {
    var line := text[at..at + i];
    LoneCrChars(text, at - 1);
    if line == "\r" {
      assert line[0] == text[at];
      FindAt(text, LONE_CR, at - 1, at - 1);
    } else {
      assert i == 1 ==> line == [text[at]];
      assert i > 1 ==> text[at + 1] == line[1];
      forall j: nat | at - 1 <= j < at + i ensures !OccursAt(text, LONE_CR, j) {
        LoneCrChars(text, j);
        assert at <= j ==> text[j] == line[j - at];
      }
      FindSkips(text, LONE_CR, at - 1, at + i);
    }
  }

  /** From the start of a line on, the header loop ends at the first lone carriage return. */
  lemma {:induction false} BlankLineIsLoneCr(text: string, at: nat)
    requires 0 < at <= |text| && text[at - 1] == '\n'
    ensures BlankLineEnd(text[at..], at) == Past(Find(text, LONE_CR, at - 1), 3)
    decreases |text| - at
  {
    hide IndexOf, BlankLineEnd, OccursAt, Find;
    var i := IndexOf(text[at..], '\n');
    LineInText(text, at);
    if at + i == |text| {
      assert text[at..at + i] == text[at..];
      LastLineHasNoLoneCr(text, at);
    } else {
      LineAndLoneCr(text, at, i);
      if text[at..at + i] != "\r" {
        BlankLineIsLoneCr(text, at + i + 1);
      }
    }
  }

  /** The header loop ends the head just past the first LF CR LF of the text, and runs to the end of
      the text when there is none. */
  lemma {:induction false} HeadEndIsLoneCr(text: string)
    ensures HeadEnd(text) == Past(Find(text, LONE_CR, 0), 3)
  {
    var i := IndexOf(text, '\n');
    if i == |text| {
      NoLineFeedNoLoneCr(text);
    } else {
      FirstLineHasNoLoneCr(text, i);
      BlankLineIsLoneCr(text, i + 1);
    }
  }

  lemma FirstLineHasNoLoneCr(text: string, i: nat)
    requires i < |text| && '\n' !in text[..i]
    ensures Find(text, LONE_CR, 0) == Find(text, LONE_CR, i)
  {
    forall j: nat | j < i ensures !OccursAt(text, LONE_CR, j) {
      LoneCrChars(text, j);
      assert text[j] == text[..i][j];
    }
    FindSkips(text, LONE_CR, 0, i);
  }

  lemma NoLineFeedNoLoneCr(text: string)
    requires '\n' !in text[..|text|]
    ensures Find(text, LONE_CR, 0) == None
  {
    forall j: nat ensures !OccursAt(text, LONE_CR, j) {
      LoneCrChars(text, j);
      assert j < |text| ==> text[j] == text[..|text|][j];
    }
    FindNothing(text, LONE_CR, 0);
  }

  /** Where the search for the blank line ends the head. */
  function FoundEnd(text: string): Option<nat> {
    Past(Find(text, BLANK_LINE, 0), 4)
  }

  /** A blank line is a lone carriage return behind another carriage return. */
  lemma BlankLineHoldsLoneCr(text: string, p: nat)
    ensures OccursAt(text, BLANK_LINE, p) <==> p < |text| && text[p] == '\r' && OccursAt(text, LONE_CR, p + 1)
  {
    OccursChars(text, p);
    LoneCrChars(text, p + 1);
  }

  lemma FoundBehindCr(text: string, k: nat)
    requires Find(text, LONE_CR, 0) == Some(k) && 0 < k <= |text| && text[k - 1] == '\r'
    ensures Find(text, BLANK_LINE, 0) == Some(k - 1)
  {
    hide OccursAt, Find;
    FindIsFirst(text, LONE_CR, 0);
    forall p: nat | p < k - 1 ensures !OccursAt(text, BLANK_LINE, p) {
      BlankLineHoldsLoneCr(text, p);
    }
    BlankLineHoldsLoneCr(text, k - 1);
    FindAt(text, BLANK_LINE, 0, k - 1);
  }

  lemma FoundHoldsLoneCr(text: string, p: nat)
    requires Find(text, BLANK_LINE, 0) == Some(p)
    ensures p < |text| && text[p] == '\r' && Find(text, LONE_CR, 0).Some?
  {
    hide OccursAt, Find;
    FindIsFirst(text, BLANK_LINE, 0);
    BlankLineHoldsLoneCr(text, p);
    FindIsFirst(text, LONE_CR, 0);
  }

  /** The two scans agree on a text exactly when its first LF CR LF, if there is one, stands behind
      a carriage return. Without one, neither scan finds an end of the head. */
  lemma {:induction false} ScansAgreeIff(text: string)
    ensures FoundEnd(text) == HeadEnd(text) <==>
              match Find(text, LONE_CR, 0)
              case Some(k) => 0 < k <= |text| && text[k - 1] == '\r'
              case None => true
    ensures HeadEnd(text) == None ==> FoundEnd(text) == None
  {
    hide HeadEnd, Find;
    HeadEndIsLoneCr(text);
    match Find(text, BLANK_LINE, 0)
    case Some(p) =>
      FoundHoldsLoneCr(text, p);
      var k := Find(text, LONE_CR, 0).value;
      if 0 < k <= |text| && text[k - 1] == '\r' {
        FoundBehindCr(text, k);
      }
    case None =>
      if k: nat :| Find(text, LONE_CR, 0) == Some(k) && 0 < k <= |text| && text[k - 1] == '\r' {
        FoundBehindCr(text, k);
      }
  }

  /** In particular on every text in which each line feed follows a carriage return. */
  lemma {:induction false} ScansAgreeOnCrlfText(text: string)
    requires forall i :: 0 <= i < |text| && text[i] == '\n' ==> 0 < i && text[i - 1] == '\r'
    ensures FoundEnd(text) == HeadEnd(text)
  {
    ScansAgreeIff(text);
    FindIsFirst(text, LONE_CR, 0);
    if k: nat :| Find(text, LONE_CR, 0) == Some(k) {
      LoneCrChars(text, k);
    }
  }

  /** A bare line feed before the blank line: the header loop ends there, and the search misses it. */
  lemma {:induction false} ScansDisagreeOnBareLineFeed()
    ensures HeadEnd("a\n\r\n") == Some(4) && FoundEnd("a\n\r\n") == None
  {
    var text := "a\n\r\n";
    HeadEndIsLoneCr(text);
    ScansAgreeIff(text);
    LoneCrChars(text, 0);
    LoneCrChars(text, 1);
    FindAt(text, LONE_CR, 0, 1);
    FindIsFirst(text, BLANK_LINE, 0);
    if p: nat :| Find(text, BLANK_LINE, 0) == Some(p) {
      OccursChars(text, p);
    }
  }

  lemma HeaderLoopStep(line: string, rest: string, m: Fields)
    requires '\n' !in line
    ensures ReadHeaders(line + ['\n'] + rest, m)
         == if line == "\r" then m else ReadHeaders(rest, m[HeaderName(line) := HeaderValue(line)])
  {
    LineOf(line, '\n', rest);
    hide HeaderName, HeaderValue, Line, Rest;
  }

  lemma BlankLineStep(line: string, rest: string, at: nat)
    requires '\n' !in line
    ensures BlankLineEnd(line + ['\n'] + rest, at)
         == if line == "\r" then Some(at + |line| + 1) else BlankLineEnd(rest, at + |line| + 1)
  {
    var text := line + ['\n'] + rest;
    IndexOfAppend(line, '\n', rest);
    assert text[..|line|] == line && text[|line| + 1..] == rest;
  }

  lemma HeadEndStep(line: string, rest: string)
    requires '\n' !in line
    ensures HeadEnd(line + ['\n'] + rest) == BlankLineEnd(rest, |line| + 1)
  {
    var text := line + ['\n'] + rest;
    IndexOfAppend(line, '\n', rest);
    assert text[..|line|] == line && text[|line| + 1..] == rest;
  }

  lemma {:induction false} BlankLineEndBound(rest: string, at: nat)
    ensures BlankLineEnd(rest, at).Some? ==> at < BlankLineEnd(rest, at).value <= at + |rest|
    decreases |rest|
  {
    hide IndexOf;
    var i := IndexOf(rest, '\n');
    if i < |rest| && rest[..i] != "\r" {
      BlankLineEndBound(rest[i + 1..], at + i + 1);
    }
  }

  lemma FirstLine(text: string, at: nat) returns (line: string, rest: string)
    requires BlankLineEnd(text, at).Some?
    ensures '\n' !in line && text == line + ['\n'] + rest
  {
    var i := IndexOf(text, '\n');
    line, rest := text[..i], text[i + 1..];
  }

  lemma PrefixOfConcat(a: string, b: string, c: string, d: string)
    requires a + b == c + d && |c| <= |a|
    ensures a == c + a[|c|..] && d == a[|c|..] + b
  {
    assert a == (c + d)[..|a|] && (a + b)[|c|..] == d;
  }

  lemma FirstLineInHead(head: string, tail: string, at: nat) returns (line: string, more: string)
    requires BlankLineEnd(head + tail, at) == Some(at + |head|)
    ensures '\n' !in line && head == line + ['\n'] + more
    ensures line == "\r" ==> more == ""
    ensures line != "\r" ==> BlankLineEnd(more + tail, at + |line| + 1) == Some(at + |line| + 1 + |more|)
  {
    var rest: string;
    line, rest := FirstLine(head + tail, at);
    BlankLineStep(line, rest, at);
    BlankLineEndBound(rest, at + |line| + 1);
    hide BlankLineEnd;
    PrefixOfConcat(head, tail, line + ['\n'], rest);
    more := head[|line| + 1..];
  }

  /** The header loop reads the head, up to and with the blank line, and nothing behind it. */
  lemma {:induction false} HeaderLoopReadsOnlyTheHead(head: string, tail: string, other: string, at: nat, m: Fields)
    requires BlankLineEnd(head + tail, at) == Some(at + |head|)
    ensures ReadHeaders(head + tail, m) == ReadHeaders(head + other, m)
    decreases |head|
  {
    hide BlankLineEnd, ReadHeaders, HeaderName, HeaderValue;
    var line, more := FirstLineInHead(head, tail, at);
    assert head + tail == line + ['\n'] + (more + tail) && head + other == line + ['\n'] + (more + other);
    HeaderLoopStep(line, more + tail, m);
    HeaderLoopStep(line, more + other, m);
    if line != "\r" {
      HeaderLoopReadsOnlyTheHead(more, tail, other, at + |line| + 1, m[HeaderName(line) := HeaderValue(line)]);
    }
  }

  // ---------------------------------------------------------------- printed messages

  function HeaderLine(h: Header): string {
    h.name + ": " + h.value + "\r\n"
  }

  function HeaderLines(hs: seq<Header>): string {
    if hs == [] then "" else HeaderLine(hs[0]) + HeaderLines(hs[1..])
  }

  /** start-line CRLF *( field-line CRLF ) CRLF [ message-body ] */
  function Message(start: string, hs: seq<Header>, body: string): string {
    start + "\r\n" + (HeaderLines(hs) + ("\r\n" + body))
  }

  predicate Printable(h: Header) {
    ':' !in h.name && '\n' !in h.name && '\n' !in h.value
  }

  predicate AllPrintable(hs: seq<Header>) {
    forall i :: 0 <= i < |hs| ==> Printable(hs[i])
  }

  /** What the parser stores for a header: the space after the colon and the carriage return stay. */
  function StoredValue(h: Header): string {
    " " + h.value + "\r"
  }

  function Stored(hs: seq<Header>, m: Fields): Fields {
    if hs == [] then m else Stored(hs[1..], m[hs[0].name := StoredValue(hs[0])])
  }

  function Names(hs: seq<Header>): seq<string> {
    if hs == [] then [] else [hs[0].name] + Names(hs[1..])
  }

  predicate LastOf(hs: seq<Header>, i: nat) {
    i < |hs| && forall j :: i < j < |hs| ==> hs[j].name != hs[i].name
  }

  lemma {:induction false} NotAName(hs: seq<Header>, k: string)
    ensures k !in Names(hs) <==> forall i :: 0 <= i < |hs| ==> hs[i].name != k
  {
    if hs != [] {
      NotAName(hs[1..], k);
      assert forall i :: 0 < i < |hs| ==> hs[i] == hs[1..][i - 1];
      assert forall i :: 0 <= i < |hs[1..]| ==> hs[1..][i] == hs[i + 1];
    }
  }

  predicate StoredAs(hs: seq<Header>, i: nat, m: Fields)
    requires i < |hs|
  {
    hs[i].name in m && m[hs[i].name] == StoredValue(hs[i])
  }

  /** The stored map is the last-wins map of the printed headers. */
  lemma {:induction false} StoredIsLastWins(hs: seq<Header>, m: Fields)
    ensures forall i: nat :: LastOf(hs, i) ==> StoredAs(hs, i, Stored(hs, m))
    ensures forall k :: k !in Names(hs) ==> (k in Stored(hs, m) <==> k in m) && (k in m ==> Stored(hs, m)[k] == m[k])
  {
    if hs != [] {
      var n := m[hs[0].name := StoredValue(hs[0])];
      StoredIsLastWins(hs[1..], n);
      forall i: nat | LastOf(hs, i) ensures StoredAs(hs, i, Stored(hs, m)) {
        if i > 0 {
          assert LastOf(hs[1..], i - 1);
          assert StoredAs(hs[1..], i - 1, Stored(hs[1..], n));
        } else {
          NotAName(hs[1..], hs[0].name);
        }
      }
    }
  }

  /** The line that `getline` reads for a header, up to the line feed. */
  function FieldLine(h: Header): string {
    h.name + [':'] + StoredValue(h)
  }

  lemma PrintedLine(h: Header)
    requires Printable(h)
    ensures HeaderLine(h) == FieldLine(h) + ['\n']
    ensures '\n' !in FieldLine(h) && FieldLine(h) != "\r"
    ensures HeaderName(FieldLine(h)) == h.name && HeaderValue(FieldLine(h)) == StoredValue(h)
  {
    LineOf(h.name, ':', StoredValue(h));
    LineOf(StoredValue(h), '\n', "");
    assert ':' in FieldLine(h);
  }

  lemma NextHeader(hs: seq<Header>, tail: string)
    requires hs != [] && Printable(hs[0])
    ensures HeaderLines(hs) + tail == FieldLine(hs[0]) + ['\n'] + (HeaderLines(hs[1..]) + tail)
    ensures |HeaderLines(hs)| == |FieldLine(hs[0])| + 1 + |HeaderLines(hs[1..])|
  {
    PrintedLine(hs[0]);
  }

  lemma LastHeader(body: string)
    ensures HeaderLines([]) + ("\r\n" + body) == "\r" + ['\n'] + body
  {
  }

  lemma {:induction false} ReadPrintedHeaders(hs: seq<Header>, body: string, m: Fields, at: nat)
    requires AllPrintable(hs)
    ensures ReadHeaders(HeaderLines(hs) + ("\r\n" + body), m) == Stored(hs, m)
    ensures BlankLineEnd(HeaderLines(hs) + ("\r\n" + body), at) == Some(at + |HeaderLines(hs)| + 2)
  {
    hide ReadHeaders, BlankLineEnd, HeaderName, HeaderValue, HeaderLine, FieldLine;
    if hs == [] {
      LastHeader(body);
      HeaderLoopStep("\r", body, m);
      BlankLineStep("\r", body, at);
    } else {
      var rest := HeaderLines(hs[1..]) + ("\r\n" + body);
      NextHeader(hs, "\r\n" + body);
      PrintedLine(hs[0]);
      HeaderLoopStep(FieldLine(hs[0]), rest, m);
      BlankLineStep(FieldLine(hs[0]), rest, at);
      ReadPrintedHeaders(hs[1..], body, m[hs[0].name := StoredValue(hs[0])], at + |FieldLine(hs[0])| + 1);
    }
  }

  predicate EndsInCrlf(s: string) {
    |s| >= 2 && s[|s| - 2] == '\r' && s[|s| - 1] == '\n'
  }

  lemma {:induction false} HeadEndsInCrlf(hs: seq<Header>)
    ensures hs != [] ==> EndsInCrlf(HeaderLines(hs))
  {
    if hs != [] {
      HeadEndsInCrlf(hs[1..]);
      assert EndsInCrlf(HeaderLine(hs[0]));
    }
  }

  lemma MessageShape(start: string, hs: seq<Header>, body: string)
    ensures var text, k := Message(start, hs, body), |start| + 2 + |HeaderLines(hs)|;
            && text == (start + "\r") + ['\n'] + (HeaderLines(hs) + ("\r\n" + body))
            && k + 2 <= |text| && text[k - 2] == '\r' && text[k + 2..] == body
  {
    var text, head := Message(start, hs, body), start + "\r\n" + HeaderLines(hs);
    HeadEndsInCrlf(hs);
    assert text == head + ("\r\n" + body);
    assert text[|head| - 2] == head[|head| - 2];
  }

  /** In a printed message both scans end the head at the same place, the header map is the
      last-wins map of the printed headers, and what follows the head is the body. */
  lemma {:induction false} PrintedMessage(start: string, hs: seq<Header>, body: string)
    requires '\n' !in start && AllPrintable(hs)
    ensures var text := Message(start, hs, body);
            && Line(text, '\n') == start + "\r"
            && ReadHeaders(Rest(text, '\n'), map[]) == Stored(hs, map[])
            && FoundEnd(text) == HeadEnd(text) == Some(|start| + 2 + |HeaderLines(hs)| + 2)
            && BodyText(text) == body
  {
    var text, tail := Message(start, hs, body), HeaderLines(hs) + ("\r\n" + body);
    MessageShape(start, hs, body);
    hide HeadEnd, ReadHeaders, Find, Message, BlankLineEnd, Line, Rest, HeaderLines;
    LineOf(start + "\r", '\n', tail);
    HeadEndStep(start + "\r", tail);
    ReadPrintedHeaders(hs, body, map[], |start| + 2);
    HeadEndIsLoneCr(text);
    ScansAgreeIff(text);
  }
}
