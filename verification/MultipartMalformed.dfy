/** Forms that no client prints: what the parser makes of a missing marker, where adding to `npos` wraps
    around, and of delimiters with too little between them. */
module MultipartMalformed {
  import opened Text
  import opened Decimal
  import opened HttpRequest
  import opened MultipartRoundTrip

  lemma Absent(s: string, p: string)
    requires !Contains(s, p)
    ensures Find(s, p, 0) == None
  {
    FindAbsent(s, p);
  }

  lemma {:induction false} UpToQuote(s: string)
    ensures UpTo(s, Find(s, "\"", 0)) == Line(s, '"')
  {
    var i := IndexOf(s, '"');
    FindIsFirst(s, "\"", 0);
    hide Find;
    if i < |s| {
      assert OccursAt(s, "\"", i);
      forall j: nat | j < i ensures !OccursAt(s, "\"", j) {
        assert s[j] == s[..i][j];
        if OccursAt(s, "\"", j) {
          OccursChar(s, "\"", j, 0);
        }
      }
      FindAt(s, "\"", 0, i);
    } else {
      assert s[..i] == s;
      forall j: nat ensures !OccursAt(s, "\"", j) {
        assert j < |s| ==> s[j] in s;
        if OccursAt(s, "\"", j) {
          OccursChar(s, "\"", j, 0);
        }
      }
      FindNothing(s, "\"", 0);
    }
  }

  lemma FileNameHoldsName(line: string)
    requires !Contains(line, "name=\"")
    ensures !Contains(line, "filename=\"")
  {
    forall i: nat ensures !OccursAt(line, "filename=\"", i) {
      if OccursAt(line, "filename=\"", i) {
        assert line[i + 4..i + 10] == line[i..i + 10][4..];
        assert "filename=\""[4..] == "name=\"";
        assert OccursAt(line, "name=\"", i + 4);
      }
    }
    NotContained(line, "filename=\"");
  }

  /** A part whose first line names nothing is a field: its name is what stands in that line from the sixth
      character to the first quote. A line of fewer than five characters throws. */
  lemma {:induction false} NameWithoutMarker(line: string, content: string)
    requires !Contains(line, "name=\"")
    ensures ReadEntry(line, content)
         == if |line| < 5 then Err(OutOfRange) else Ok(Field(Line(line[5..], '"'), content))
  {
    FileNameHoldsName(line);
    Absent(line, "name=\"");
    Absent(line, "filename=\"");
    hide Contains, Find;
    if |line| >= 5 {
      UpToQuote(line[5..]);
    }
  }

  /** A part without a blank line is all head, and its content is its first line from the fourth character.
      A part of fewer than three characters throws. */
  lemma {:induction false} ContentWithoutBlankLine(part: string)
    requires !Contains(part, "\r\n\r\n")
    ensures PartHead(part) == part
    ensures PartBody(part) == if |part| < 3 then Err(OutOfRange) else Ok(Kept(part[3..]))
  {
    assert BLANK_LINE == "\r\n\r\n";
    Absent(part, BLANK_LINE);
    hide Contains, Find;
  }

  /** A form type without a boundary parameter: the delimiter is made of the value from the ninth
      character on. */
  lemma {:induction false} BoundaryWithoutParameter(contentType: string)
    requires |contentType| >= 19 && !Contains(contentType, "boundary=")
    ensures Boundary(contentType) == "--" + contentType[8..]
  {
    Absent(contentType, "boundary=");
    hide Contains, Find;
  }

  /** Two delimiters with fewer than two characters between them: the count of the part wraps around, and
      the part is all that follows the first of them. */
  lemma {:induction false} ShortGapTakesTheRest(d: string, gap: string, rest: string)
    requires d != "" && |gap| < 2 && Find(d + gap + d + rest, d, |d|) == Some(|d| + |gap|)
    ensures var body := d + gap + d + rest;
            SplitParts(body, d, 0) == [gap + d + rest] + SplitParts(body, d, |d| + |gap|)
  {
    var body := d + gap + d + rest;
    assert body == d + (gap + d + rest);
    FindAtStart(d, gap + d + rest);
    assert body[|d|..] == gap + d + rest;
    hide Find;
  }
}
