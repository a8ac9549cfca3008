/** The parts of `std::string` and `std::istream` that the HTTP code is written with. */
module Text {

  datatype Option<+T> = None | Some(value: T)

  // ---------------------------------------------------------------- find and substr

  predicate OccursAt(s: string, p: string, i: nat) {
    i + |p| <= |s| && s[i..i + |p|] == p
  }

  predicate Contains(s: string, p: string) {
    exists i :: 0 <= i <= |s| && OccursAt(s, p, i)
  }

  /** `s.find(p, from)`; `npos` is None. */
  function Find(s: string, p: string, from: nat): Option<nat>
    decreases |s| - from
  {
    if from + |p| > |s| then None
    else if OccursAt(s, p, from) then Some(from)
    else if from == |s| then None
    else Find(s, p, from + 1)
  }

  /** `find(...) + k` on an unsigned size: adding to `npos` wraps around to k - 1. */
  function Offset(found: Option<nat>, k: nat): nat
    requires 0 < k
  {
    match found
    case Some(i) => i + k
    case None => k - 1
  }

  lemma {:induction false} FindIsFirst(s: string, p: string, from: nat)
    ensures match Find(s, p, from)
            case Some(i) => from <= i && OccursAt(s, p, i) && forall j :: from <= j < i ==> !OccursAt(s, p, j)
            case None => forall j :: from <= j ==> !OccursAt(s, p, j)
    decreases |s| - from
  {
    if from + |p| <= |s| && !OccursAt(s, p, from) && from < |s| {
      FindIsFirst(s, p, from + 1);
    }
  }

  lemma FindAt(s: string, p: string, from: nat, i: nat)
    requires from <= i && OccursAt(s, p, i)
    requires forall j :: from <= j < i ==> !OccursAt(s, p, j)
    ensures Find(s, p, from) == Some(i)
  {
    FindIsFirst(s, p, from);
  }

  lemma FindNothing(s: string, p: string, from: nat)
    requires forall j :: from <= j ==> !OccursAt(s, p, j)
    ensures Find(s, p, from) == None
  {
    FindIsFirst(s, p, from);
  }

  /** Positions without an occurrence can be skipped. */
  lemma FindSkips(s: string, p: string, from: nat, to: nat)
    requires from <= to && forall j :: from <= j < to ==> !OccursAt(s, p, j)
    ensures Find(s, p, from) == Find(s, p, to)
  {
    FindIsFirst(s, p, to);
    hide Find, OccursAt;
    match Find(s, p, to)
    case Some(i) => FindAt(s, p, from, i);
    case None => FindNothing(s, p, from);
  }

  lemma NotContained(s: string, p: string)
    ensures !Contains(s, p) <==> forall i: nat :: !OccursAt(s, p, i)
  {
  }

  lemma OccursInFront(x: string, y: string, p: string, i: nat)
    requires i + |p| <= |x|
    ensures OccursAt(x + y, p, i) <==> OccursAt(x, p, i)
  {
    assert (x + y)[i..i + |p|] == x[i..i + |p|];
  }

  lemma OccursBehind(x: string, y: string, p: string, i: nat)
    requires |x| <= i
    ensures OccursAt(x + y, p, i) <==> OccursAt(y, p, i - |x|)
  {
    if i + |p| <= |x + y| {
      assert (x + y)[i..i + |p|] == y[i - |x|..i - |x| + |p|];
    }
  }

  /** Scanning behind a prefix is scanning the rest. */
  lemma FindBehind(x: string, y: string, p: string, from: nat)
    ensures Find(x + y, p, |x| + from)
         == match Find(y, p, from) { case Some(i) => Some(|x| + i) case None => None }
  {
    hide OccursAt, Find;
    FindIsFirst(y, p, from);
    forall j | |x| + from <= j ensures OccursAt(x + y, p, j) <==> OccursAt(y, p, j - |x|) {
      OccursBehind(x, y, p, j);
    }
    match Find(y, p, from)
    case Some(i) => FindAt(x + y, p, |x| + from, |x| + i);
    case None => FindNothing(x + y, p, |x| + from);
  }

  lemma OccursChar(s: string, p: string, i: nat, k: nat)
    requires OccursAt(s, p, i) && k < |p|
    ensures s[i + k] == p[k]
  {
    assert s[i..i + |p|][k] == s[i + k];
  }

  /** The first occurrence in x + p + y is the one after x, unless one ends inside x or the
      proper prefix of p that follows it. */
  lemma {:induction false} FindAfter(x: string, p: string, y: string)
    requires p != "" && !Contains(x + p[..|p| - 1], p)
    ensures Find(x + p + y, p, 0) == Some(|x|)
  {
    var s, front := x + p + y, x + p[..|p| - 1];
    assert s == x + (p + y) && (p + y)[..|p|] == p;
    OccursBehind(x, p + y, p, |x|);
    assert s == front + (p[|p| - 1..] + y);
    forall j | 0 <= j < |x| ensures !OccursAt(s, p, j) {
      OccursInFront(front, p[|p| - 1..] + y, p, j);
      NotContained(front, p);
    }
    FindAt(s, p, 0, |x|);
  }

  lemma FindAbsent(s: string, p: string)
    requires !Contains(s, p)
    ensures Find(s, p, 0) == None
  {
    NotContained(s, p);
    FindNothing(s, p, 0);
  }

  lemma Associative(x: string, y: string, z: string)
    ensures x + (y + z) == x + y + z
  {
  }

  // ---------------------------------------------------------------- single characters

  /** The position of the first c, or the length of the text. */
  function IndexOf(s: string, c: char): (i: nat)
    ensures i <= |s| && c !in s[..i] && (i < |s| ==> s[i] == c)
  {
    if s == "" || s[0] == c then 0
    else
      var i := 1 + IndexOf(s[1..], c);
      assert s[..i] == [s[0]] + s[1..][..i - 1];
      i
  }

  lemma {:induction false} IndexOfAppend(a: string, c: char, b: string)
    requires c !in a
    ensures IndexOf(a + [c] + b, c) == |a| && IndexOf(a, c) == |a|
  {
    if a != "" {
      assert a[0] in a && c !in a[1..];
      IndexOfAppend(a[1..], c, b);
      assert (a + [c] + b)[1..] == a[1..] + [c] + b;
    }
  }

  lemma {:induction false} IndexOfAtMost(s: string, c: char, k: nat)
    requires k < |s| && s[k] == c
    ensures IndexOf(s, c) <= k
  {
    if s[0] != c {
      IndexOfAtMost(s[1..], c, k - 1);
    }
  }

  // ---------------------------------------------------------------- getline

  /** What `getline(stream, line, delim)` stores, and what it leaves in the stream. */
  function Line(s: string, delim: char): string {
    s[..IndexOf(s, delim)]
  }

  function Rest(s: string, delim: char): string {
    var i := IndexOf(s, delim);
    if i < |s| then s[i + 1..] else ""
  }

  lemma {:induction false} LineOf(a: string, delim: char, b: string)
    requires delim !in a
    ensures Line(a + [delim] + b, delim) == a && Rest(a + [delim] + b, delim) == b
    ensures Line(a, delim) == a && Rest(a, delim) == ""
  {
    IndexOfAppend(a, delim, b);
  }

  lemma RestIsShorter(s: string, delim: char)
    requires s != ""
    ensures |Rest(s, delim)| < |s|
  {
  }

  // ---------------------------------------------------------------- blanks

  /** `isspace` in the C locale. */
  predicate IsSpace(c: char) {
    c == ' ' || 9 <= c as int <= 13
  }

  /** `erase(0, find_first_not_of(blanks))`: everything goes when there is nothing else. */
  function TrimLeft(s: string, blanks: string): string {
    if s != "" && s[0] in blanks then TrimLeft(s[1..], blanks) else s
  }

  /** `erase(find_last_not_of(blanks) + 1)`. */
  function TrimRight(s: string, blanks: string): string {
    if s != "" && s[|s| - 1] in blanks then TrimRight(s[..|s| - 1], blanks) else s
  }

  predicate AllIn(s: string, blanks: string) {
    forall c :: c in s ==> c in blanks
  }

  /** Nothing to trim at either end. */
  predicate Tight(s: string, left: string, right: string) {
    s != "" ==> s[0] !in left && s[|s| - 1] !in right
  }

  lemma {:induction false} TrimLeftOf(a: string, s: string, blanks: string)
    requires AllIn(a, blanks) && (s != "" ==> s[0] !in blanks)
    ensures TrimLeft(a + s, blanks) == s
  {
    if a == "" {
      assert a + s == s;
    } else {
      assert a[0] in a;
      assert forall c :: c in a[1..] ==> c in a;
      TrimLeftOf(a[1..], s, blanks);
      assert (a + s)[1..] == a[1..] + s;
    }
  }

  lemma {:induction false} TrimRightOf(s: string, b: string, blanks: string)
    requires AllIn(b, blanks) && (s != "" ==> s[|s| - 1] !in blanks)
    ensures TrimRight(s + b, blanks) == s
  {
    if b == "" {
      assert s + b == s;
    } else {
      var last := b[|b| - 1];
      assert last in b;
      assert forall c :: c in b[..|b| - 1] ==> c in b;
      TrimRightOf(s, b[..|b| - 1], blanks);
      assert (s + b)[..|s + b| - 1] == s + b[..|b| - 1];
    }
  }

  lemma {:induction false} TrimLeftShape(s: string, blanks: string) returns (a: string)
    ensures s == a + TrimLeft(s, blanks) && AllIn(a, blanks)
    ensures TrimLeft(s, blanks) != "" ==> TrimLeft(s, blanks)[0] !in blanks
  {
    if s != "" && s[0] in blanks {
      a := TrimLeftShape(s[1..], blanks);
      a := [s[0]] + a;
    } else {
      a := "";
    }
  }

  lemma {:induction false} TrimRightShape(s: string, blanks: string) returns (b: string)
    ensures s == TrimRight(s, blanks) + b && AllIn(b, blanks)
    ensures TrimRight(s, blanks) != "" ==> TrimRight(s, blanks)[|TrimRight(s, blanks)| - 1] !in blanks
  {
    if s != "" && s[|s| - 1] in blanks {
      b := TrimRightShape(s[..|s| - 1], blanks);
      b := b + [s[|s| - 1]];
    } else {
      b := "";
    }
  }

  /** `StringUtils::trim`. */
  function Trim(s: string): string {
    TrimRight(TrimLeft(s, " \t\n\r"), " \t\n\r")
  }

  /** Trimming undoes any padding with blanks, and only that. */
  lemma {:induction false} TrimUndoesPadding(a: string, s: string, b: string)
    requires AllIn(a, " \t\n\r") && AllIn(b, " \t\n\r") && Tight(s, " \t\n\r", " \t\n\r")
    ensures Trim(a + s + b) == s
  {
    assert a + s + b == a + (s + b);
    if s == "" {
      assert s + b == b && TrimLeft(b + "", " \t\n\r") == "" by {
        TrimLeftOf(b, "", " \t\n\r");
      }
      TrimLeftOf(a + b, "", " \t\n\r");
      assert a + (s + b) == a + b + "";
    } else {
      TrimLeftOf(a, s + b, " \t\n\r");
      TrimRightOf(s, b, " \t\n\r");
    }
  }

  /** Only blanks at the two ends are trimmed, and all of them. */
  lemma {:induction false} TrimRemovesOnlyBlanks(s: string) returns (a: string, b: string)
    ensures s == a + Trim(s) + b && AllIn(a, " \t\n\r") && AllIn(b, " \t\n\r")
    ensures Tight(Trim(s), " \t\n\r", " \t\n\r")
  {
    var blanks := " \t\n\r";
    var t := TrimLeft(s, blanks);
    hide TrimLeft, TrimRight, AllIn;
    a := TrimLeftShape(s, blanks);
    b := TrimRightShape(t, blanks);
    assert s == a + (Trim(s) + b);
  }

  // ---------------------------------------------------------------- operator>>

  function SkipSpace(s: string): string {
    if s != "" && IsSpace(s[0]) then SkipSpace(s[1..]) else s
  }

  lemma {:induction false} SkipSpaceOf(gap: string, s: string)
    requires (forall c :: c in gap ==> IsSpace(c)) && (s == "" || !IsSpace(s[0]))
    ensures SkipSpace(gap + s) == s
  {
    if gap == "" {
      assert gap + s == s;
    } else {
      assert gap[0] in gap;
      assert forall c :: c in gap[1..] ==> c in gap;
      SkipSpaceOf(gap[1..], s);
      assert (gap + s)[1..] == gap[1..] + s;
    }
  }

  function Word(s: string): string {
    if s == "" || IsSpace(s[0]) then "" else [s[0]] + Word(s[1..])
  }

  /** `stream >> word`: the word read, and what is left of the stream. */
  function ReadWord(s: string): (string, string) {
    var t := SkipSpace(s);
    WordIsPrefix(t);
    (Word(t), t[|Word(t)|..])
  }

  lemma {:induction false} WordIsPrefix(s: string)
    ensures |Word(s)| <= |s|
  {
    if s != "" && !IsSpace(s[0]) {
      WordIsPrefix(s[1..]);
    }
  }

  predicate IsWord(s: string) {
    s != "" && forall c :: c in s ==> !IsSpace(c)
  }

  lemma {:induction false} WordOf(w: string, rest: string)
    requires forall c :: c in w ==> !IsSpace(c)
    requires rest == "" || IsSpace(rest[0])
    ensures Word(w + rest) == w
  {
    if w == "" {
      assert w + rest == rest;
    } else {
      assert w[0] in w;
      assert forall c :: c in w[1..] ==> c in w;
      WordOf(w[1..], rest);
      assert (w + rest)[1..] == w[1..] + rest;
    }
  }

  /** A word between white space is read, and the white space behind it is left. */
  lemma {:induction false} ReadWordOf(gap: string, w: string, rest: string)
    requires (forall c :: c in gap ==> IsSpace(c)) && IsWord(w) && (rest == "" || IsSpace(rest[0]))
    ensures ReadWord(gap + w + rest) == (w, rest)
  {
    assert w[0] in w;
    SkipSpaceOf(gap, w + rest);
    assert gap + w + rest == gap + (w + rest);
    WordOf(w, rest);
    assert (w + rest)[|w|..] == rest;
  }

  lemma {:induction false} WordGoesOn(w: string, t: string)
    requires forall c :: c in w ==> !IsSpace(c)
    ensures Word(w + t) == w + Word(t)
  {
    if w == "" {
      assert w + t == t;
    } else {
      assert w[0] in w;
      assert forall c :: c in w[1..] ==> c in w;
      WordGoesOn(w[1..], t);
      assert (w + t)[1..] == w[1..] + t;
    }
  }

  /** A word ends at one of the six white-space characters, and at nothing else. */
  lemma {:induction false} WordEndsAt(w: string, c: char, rest: string)
    requires IsWord(w)
    ensures ReadWord(w + [c] + rest).0 == w <==> c in " \t\n\r" || c as int == 11 || c as int == 12
  {
    assert w[0] in w;
    assert w + [c] + rest == w + ([c] + rest);
    WordGoesOn(w, [c] + rest);
    assert SkipSpace(w + ([c] + rest)) == w + ([c] + rest);
    assert Word([c] + rest) == "" <==> IsSpace(c);
  }

  // ---------------------------------------------------------------- case

  /** `tolower` in the C locale. */
  function LowerChar(c: char): char {
    if 'A' <= c <= 'Z' then (c as int + 32) as char else c
  }

  function ToLower(s: string): (r: string)
    ensures |r| == |s|
  {
    if s == "" then "" else [LowerChar(s[0])] + ToLower(s[1..])
  }
}
