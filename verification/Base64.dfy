/** The base64 codec of AESCipher: section 4 of RFC 4648, with the decoder's four-character buffer
    and its ragged tail. Characters and bytes are both `bv8`, as in the C++ text. */
module Base64 {

  type Octet = bv8
  type Unit = v: Octet | v < 64

  const PAD: Octet := 61
  const NPOS_AS_BYTE: Octet := 0xFF

  const UPPER: string := "ABCDEFGHIJKLMNOPQRSTUVWXYZ"
  const LOWER: string := "abcdefghijklmnopqrstuvwxyz"
  const DIGITS: string := "0123456789+/"
  const ALPHABET: string := UPPER + LOWER + DIGITS

  /** `isalnum` in the C locale, or one of the two extra characters. */
  predicate IsBase64(c: Octet) {
    65 <= c <= 90 || 97 <= c <= 122 || 48 <= c <= 57 || c == 43 || c == 47
  }

  /** The alphabet as a table from six-bit units to characters. */
  function CharOf(v: Unit): Octet {
    if v < 26 then v + 65
    else if v < 52 then v + 71
    else if v < 62 then v - 4
    else if v == 62 then 43
    else 47
  }

  /** `base64_chars.find(c)` stored in a byte: the failure value is truncated to 0xFF. */
  function Lookup(c: Octet): Octet {
    if 65 <= c <= 90 then c - 65
    else if 97 <= c <= 122 then c - 71
    else if 48 <= c <= 57 then c + 4
    else if c == 43 then 62
    else if c == 47 then 63
    else NPOS_AS_BYTE
  }

  lemma UpperInOrder(i: nat)
    requires i < 26
    ensures |UPPER| == 26 && UPPER[i] as int == 65 + i
  {
  }

  lemma LowerInOrder(i: nat)
    requires i < 26
    ensures |LOWER| == 26 && LOWER[i] as int == 97 + i
  {
  }

  lemma DigitsInOrder(i: nat)
    requires i < 12
    ensures |DIGITS| == 12 && DIGITS[i] as int == if i < 10 then 48 + i else if i == 10 then 43 else 47
  {
  }

  lemma CharCode(i: nat)
    requires i < 64
    ensures CharOf(i as Octet) as int
         == if i < 26 then i + 65 else if i < 52 then i + 71 else if i < 62 then i - 4 else if i == 62 then 43 else 47
  {
  }

  /** The table is the alphabet string, position by position. */
  lemma {:induction false} TableSpellsAlphabet(i: nat)
    requires i < 64
    ensures |ALPHABET| == 64 && ALPHABET[i] as int == CharOf(i as Octet) as int
         == if i < 26 then 'A' as int + i
            else if i < 52 then 'a' as int + i - 26
            else if i < 62 then '0' as int + i - 52
            else if i == 62 then '+' as int else '/' as int
  {
    hide CharOf;
    CharCode(i);
    UpperInOrder(if i < 26 then i else 0);
    LowerInOrder(if 26 <= i < 52 then i - 26 else 0);
    DigitsInOrder(if i < 52 then 0 else i - 52);
  }

  lemma PadIsEquals(c: Octet)
    ensures c == PAD <==> c as int == '=' as int
  {
  }

  /** The lookup inverts the table on the alphabet and fails everywhere else. */
  lemma {:induction false} LookupInvertsAlphabet(c: Octet)
    ensures IsBase64(c) <==> Lookup(c) < 64
    ensures IsBase64(c) ==> CharOf(Lookup(c)) == c
    ensures !IsBase64(c) ==> Lookup(c) == 0xFF
    ensures c < 64 ==> IsBase64(CharOf(c)) && Lookup(CharOf(c)) == c && CharOf(c) != PAD
  {
  }

  // ---------------------------------------------------------------- specification

  function First(a: Octet, b: Octet): Octet {
    (a << 2) + ((b & 0x30) >> 4)
  }

  function Second(b: Octet, c: Octet): Octet {
    ((b & 0xf) << 4) + ((c & 0x3c) >> 2)
  }

  function Third(c: Octet, d: Octet): Octet {
    ((c & 0x3) << 6) + d
  }

  /** The six-bit units of the longest prefix of alphabet characters. */
  function Units(s: seq<Octet>): (q: seq<Unit>)
    ensures |q| <= |s|
    ensures |q| < |s| ==> !IsBase64(s[|q|])
  {
    if s != [] && IsBase64(s[0]) then
      LookupInvertsAlphabet(s[0]);
      [Lookup(s[0])] + Units(s[1..])
    else []
  }

  /** Regroups six-bit units into bytes, three for each group of four. */
  function Regroup(q: seq<Octet>): seq<Octet> {
    if |q| >= 4 then
      [First(q[0], q[1]), Second(q[1], q[2]), Third(q[2], q[3])] + Regroup(q[4..])
    else if |q| == 3 then [First(q[0], q[1]), Second(q[1], q[2])]
    else if |q| == 2 then [First(q[0], q[1])]
    else []
  }

  /** The last group as the tail of the decoder computes it, before it is cut to |q| - 1 bytes:
      `filler` stands in the buffer for every missing unit. */
  function TailGroup(q: seq<Octet>, filler: Octet): seq<Octet>
    requires 0 < |q| < 4
  {
    var b := if |q| > 1 then q[1] else filler;
    var c := if |q| > 2 then q[2] else filler;
    [First(q[0], b), Second(b, c), Third(c, filler)]
  }

  function Decode(s: seq<Octet>): seq<Octet> {
    Regroup(Units(s))
  }

  function Unit0(a: Octet): Unit { a >> 2 }

  function Unit1(a: Octet, b: Octet): Unit { ((a & 0x3) << 4) | (b >> 4) }

  function Unit2(b: Octet, c: Octet): Unit { ((b & 0xf) << 2) | (c >> 6) }

  function Unit3(c: Octet): Unit { c & 0x3f }

  /** The encoder's units: each group of three bytes gives four units, a short group is zero filled. */
  function Split(x: seq<Octet>): (q: seq<Unit>)
    ensures |q| == (8 * |x| + 5) / 6
  {
    if |x| >= 3 then [Unit0(x[0]), Unit1(x[0], x[1]), Unit2(x[1], x[2]), Unit3(x[2])] + Split(x[3..])
    else if |x| == 2 then [Unit0(x[0]), Unit1(x[0], x[1]), Unit2(x[1], 0)]
    else if |x| == 1 then [Unit0(x[0]), Unit1(x[0], 0)]
    else []
  }

  function Spell(q: seq<Unit>): (s: seq<Octet>)
    ensures |s| == |q|
  {
    if q == [] then [] else [CharOf(q[0])] + Spell(q[1..])
  }

  function Pads(n: nat): (s: seq<Octet>)
    ensures |s| == n
  {
    seq(n, _ => PAD)
  }

  function Padding(n: nat): seq<Octet> {
    Pads((3 - n % 3) % 3)
  }

  function Encode(x: seq<Octet>): seq<Octet> {
    Spell(Split(x)) + Padding(|x|)
  }

  lemma {:induction false} SpelledAt(q: seq<Unit>, j: nat)
    requires j < |q|
    ensures Spell(q)[j] == CharOf(q[j])
  {
    if j > 0 {
      SpelledAt(q[1..], j - 1);
    }
  }

  /** An encoded text: four characters for every three bytes begun, one of the alphabet for each unit and
      `=` in the places behind them. */
  lemma {:induction false} EncodedCharacters(x: seq<Octet>, j: nat)
    ensures |Encode(x)| == 4 * ((|x| + 2) / 3) && |Split(x)| <= |Encode(x)|
    ensures j < |Encode(x)| ==>
              Encode(x)[j] as int == if j < |Split(x)| then ALPHABET[Split(x)[j]] as int else '=' as int
  {
    hide CharOf, Split, Spell;
    if j < |Split(x)| {
      SpelledAt(Split(x), j);
      TableSpellsAlphabet(Split(x)[j] as nat);
    } else {
      PadIsEquals(PAD);
    }
  }

  lemma EncodedPadding(x: seq<Octet>)
    ensures |Encode(x)| == 4 * ((|x| + 2) / 3)
    ensures forall j :: |Split(x)| <= j < |Encode(x)| ==> Encode(x)[j] as int == '=' as int
  {
    EncodedCharacters(x, 0);
    forall j | |Split(x)| <= j < |Encode(x)| ensures Encode(x)[j] as int == '=' as int {
      EncodedCharacters(x, j);
    }
  }

  // ---------------------------------------------------------------- bit strings

  /** Bit m of a byte, the most significant first. */
  predicate Bit8(b: Octet, m: nat)
    requires m < 8
  {
    match m
    case 0 => b & 128 != 0
    case 1 => b & 64 != 0
    case 2 => b & 32 != 0
    case 3 => b & 16 != 0
    case 4 => b & 8 != 0
    case 5 => b & 4 != 0
    case 6 => b & 2 != 0
    case _ => b & 1 != 0
  }

  /** Bit m of a six-bit unit, the most significant first. */
  predicate Bit6(v: Unit, m: nat)
    requires m < 6
  {
    Bit8(v, m + 2)
  }

  /** Bit k of the bit string that the bytes spell, continued with zeros. */
  predicate InputBit(x: seq<Octet>, k: nat) {
    k / 8 < |x| && Bit8(x[k / 8], k % 8)
  }

  lemma UnitBits(a: Octet, b: Octet, m: nat)
    requires m < 6
    ensures Bit6(Unit0(a), m) == Bit8(a, m)
    ensures Bit6(Unit1(a, b), m) == if m < 2 then Bit8(a, m + 6) else Bit8(b, m - 2)
    ensures Bit6(Unit2(a, b), m) == if m < 4 then Bit8(a, m + 4) else Bit8(b, m - 4)
    ensures Bit6(Unit3(a), m) == Bit8(a, m + 2)
  {
  }

  lemma BitPosition(j: nat, m: nat)
    requires m < 6
    ensures var i, k := BytePosition(j), 6 * j + m;
            match j % 4
            case 0 => k / 8 == i && k % 8 == m
            case 1 => if m < 2 then k / 8 == i && k % 8 == m + 6 else k / 8 == i + 1 && k % 8 == m - 2
            case 2 => if m < 4 then k / 8 == i && k % 8 == m + 4 else k / 8 == i + 1 && k % 8 == m - 4
            case _ => k / 8 == i && k % 8 == m + 2
  {
  }

  /** The encoder only regroups bits: bit m of its unit j is bit 6j + m of the input's bit string,
      followed by the zero fill of section 4 of RFC 4648. */
  lemma {:induction false} EncoderKeepsTheBitString(x: seq<Octet>, j: nat, m: nat)
    requires j < |Split(x)| && m < 6
    ensures Bit6(Split(x)[j], m) == InputBit(x, 6 * j + m)
  {
    hide Unit0, Unit1, Unit2, Unit3, Bit8, Split;
    UnitsByPosition(x, j);
    BitPosition(j, m);
    var i := BytePosition(j);
    var next := if i + 1 < |x| then x[i + 1] else 0;
    UnitBits(x[i], next, m);
    ZeroBits((6 * j + m) % 8);
  }

  lemma ZeroBits(m: nat)
    requires m < 8
    ensures !Bit8(0, m)
  {
  }

  /** The first of the two units that byte i takes its bits from. */
  function UnitPosition(i: nat): (p: nat)
    ensures p == 8 * i / 6
  {
    4 * (i / 3) + i % 3
  }

  /** The byte at position i read straight from its bit position. */
  function ByteAt(q: seq<Unit>, i: nat): Octet
    requires UnitPosition(i) + 1 < |q|
  {
    var p := UnitPosition(i);
    if i % 3 == 0 then First(q[p], q[p + 1])
    else if i % 3 == 1 then Second(q[p], q[p + 1])
    else Third(q[p], q[p + 1])
  }

  lemma {:induction false} BytesByPosition(q: seq<Unit>, i: nat)
    requires i < |Regroup(q)|
    ensures UnitPosition(i) + 1 < |q| && Regroup(q)[i] == ByteAt(q, i)
  {
    hide First, Second, Third;
    if |q| >= 4 && i >= 3 {
      BytesByPosition(q[4..], i - 3);
      assert UnitPosition(i - 3) == UnitPosition(i) - 4;
    }
  }

  lemma ByteBits(a: Unit, b: Unit, m: nat)
    requires m < 8
    ensures Bit8(First(a, b), m) == if m < 6 then Bit6(a, m) else Bit6(b, m - 6)
    ensures Bit8(Second(a, b), m) == if m < 4 then Bit6(a, m + 2) else Bit6(b, m - 4)
    ensures Bit8(Third(a, b), m) == if m < 2 then Bit6(a, m + 4) else Bit6(b, m - 2)
  {
  }

  lemma UnitBitPosition(i: nat, m: nat)
    requires m < 8
    ensures var p, k := UnitPosition(i), 8 * i + m;
            match i % 3
            case 0 => if m < 6 then k / 6 == p && k % 6 == m else k / 6 == p + 1 && k % 6 == m - 6
            case 1 => if m < 4 then k / 6 == p && k % 6 == m + 2 else k / 6 == p + 1 && k % 6 == m - 4
            case _ => if m < 2 then k / 6 == p && k % 6 == m + 4 else k / 6 == p + 1 && k % 6 == m - 2
  {
  }

  /** And so does the decoder, on any text: bit m of its byte i is bit 8i + m of the units that it read. */
  lemma {:induction false} DecoderKeepsTheBitString(s: seq<Octet>, i: nat, m: nat)
    requires i < |Decode(s)| && m < 8
    ensures (8 * i + m) / 6 < |Units(s)|
    ensures Bit8(Decode(s)[i], m) == Bit6(Units(s)[(8 * i + m) / 6], (8 * i + m) % 6)
  {
    hide First, Second, Third, Bit8, Regroup, Units;
    var q, p := Units(s), UnitPosition(i);
    BytesByPosition(q, i);
    UnitBitPosition(i, m);
    ByteBits(q[p], q[p + 1], m);
  }

  // ---------------------------------------------------------------- round trips

  lemma GroupRoundTrip(a: Octet, b: Octet, c: Octet)
    ensures First(Unit0(a), Unit1(a, b)) == a
    ensures Second(Unit1(a, b), Unit2(b, c)) == b
    ensures Third(Unit2(b, c), Unit3(c)) == c
  {
  }

  lemma {:induction false} RegroupInvertsSplit(x: seq<Octet>)
    ensures Regroup(Split(x)) == x
  {
    if |x| >= 3 {
      RegroupInvertsSplit(x[3..]);
      GroupRoundTrip(x[0], x[1], x[2]);
      assert Split(x)[4..] == Split(x[3..]);
    } else if |x| == 2 {
      GroupRoundTrip(x[0], x[1], 0);
    } else if |x| == 1 {
      GroupRoundTrip(x[0], 0, 0);
    }
  }

  lemma UnitsOfCons(v: Unit, s: seq<Octet>)
    ensures Units([CharOf(v)] + s) == [v] + Units(s)
  {
    LookupInvertsAlphabet(v);
    hide CharOf, Lookup, IsBase64;
    assert ([CharOf(v)] + s)[1..] == s;
  }

  lemma NoUnits(rest: seq<Octet>)
    requires rest == [] || !IsBase64(rest[0])
    ensures Units(rest) == []
  {
  }

  lemma {:induction false} UnitsOfSpelling(q: seq<Unit>, rest: seq<Octet>)
    requires rest == [] || !IsBase64(rest[0])
    ensures Units(Spell(q) + rest) == q
  {
    if q == [] {
      NoUnits(rest);
      assert Spell([]) + rest == rest;
    } else {
      hide CharOf, Lookup, IsBase64, Units;
      UnitsOfSpelling(q[1..], rest);
      UnitsOfCons(q[0], Spell(q[1..]) + rest);
      assert Spell(q) + rest == [CharOf(q[0])] + (Spell(q[1..]) + rest);
      assert q == [q[0]] + q[1..];
    }
  }

  lemma {:induction false} SpellingOfUnits(s: seq<Octet>)
    ensures s[..|Units(s)|] == Spell(Units(s))
  {
    if Units(s) != [] {
      LookupInvertsAlphabet(s[0]);
      SpellingOfUnits(s[1..]);
      assert Units(s)[1..] == Units(s[1..]);
      assert s[..|Units(s)|] == [s[0]] + s[1..][..|Units(s[1..])|];
    }
  }

  /** What the codec is for: decoding an encoded byte sequence gives it back. */
  lemma {:induction false} DecodeInvertsEncode(x: seq<Octet>)
    ensures Decode(Encode(x)) == x
  {
    UnitsOfSpelling(Split(x), Padding(|x|));
    RegroupInvertsSplit(x);
  }

  /** Only the alphabet prefix matters, and it fixes the length of the result. */
  lemma {:induction false} DecodeReadsTheAlphabetPrefix(s: seq<Octet>, t: seq<Octet>)
    requires t == [] || !IsBase64(t[0])
    ensures Decode(s[..|Units(s)|] + t) == Decode(s)
    ensures var p := |Units(s)|;
            |Decode(s)| == 3 * (p / 4) + (if p % 4 == 0 then 0 else p % 4 - 1)
  {
    SpellingOfUnits(s);
    UnitsOfSpelling(Units(s), t);
    RegroupLength(Units(s));
  }

  lemma {:induction false} RegroupLength(q: seq<Octet>)
    ensures |Regroup(q)| == 3 * (|q| / 4) + (if |q| % 4 == 0 then 0 else |q| % 4 - 1)
  {
    if |q| >= 4 {
      RegroupLength(q[4..]);
    }
  }

  /** The bytes the tail emits are those of the regrouping, whatever the buffer holds for the
      missing units: the 0xFF that a failed lookup leaves there never reaches the output. */
  lemma {:induction false} FillerIsNeverEmitted(q: seq<Octet>, filler: Octet)
    requires 0 < |q| < 4
    ensures TailGroup(q, filler)[..|q| - 1] == Regroup(q)
  {
    if |q| == 1 {
      assert TailGroup(q, filler)[..0] == [];
    } else if |q| == 2 {
      assert TailGroup(q, filler)[..1] == [First(q[0], q[1])];
    } else {
      assert TailGroup(q, filler)[..2] == [First(q[0], q[1]), Second(q[1], q[2])];
    }
  }

  /** Section 4 of RFC 4648: whole groups of alphabet characters, the right padding, and unused
      bits that are zero. */
  predicate Canonical(s: seq<Octet>) {
    var q := Units(s);
    && CanonicalUnits(q)
    && Padded(s, |q|)
  }

  /** Behind the first n characters stand as many `=` as complete the last group of four. */
  predicate Padded(s: seq<Octet>, n: nat)
    requires n <= |s|
  {
    |s| - n == (4 - n % 4) % 4 && forall j :: n <= j < |s| ==> s[j] as int == '=' as int
  }

  lemma CanonicalPadding(s: seq<Octet>, n: nat)
    requires n <= |s|
    ensures s[n..] == Pads((4 - n % 4) % 4) <==> Padded(s, n)
  {
    forall j | n <= j < |s| ensures s[j] == PAD <==> s[j] as int == '=' as int {
      PadIsEquals(s[j]);
    }
    if s[n..] == Pads((4 - n % 4) % 4) {
      forall j | n <= j < |s| ensures s[j] == PAD {
        assert s[n..][j - n] == s[j];
      }
    }
  }

  predicate CanonicalUnits(q: seq<Unit>) {
    && |q| % 4 != 1
    && (|q| % 4 != 0 ==> UnusedBitsZero(q[|q| - 1], |q| % 4))
  }

  /** In a last group of n units, the bits of the last unit that no byte takes up are zero. */
  predicate UnusedBitsZero(v: Unit, n: nat) {
    (n == 2 ==> v & 0xf == 0) && (n == 3 ==> v & 0x3 == 0)
  }

  lemma CanonicalAfterGroup(q: seq<Unit>)
    requires |q| >= 4
    ensures CanonicalUnits(q[4..]) == CanonicalUnits(q)
  {
    hide UnusedBitsZero;
    assert |q[4..]| % 4 == |q| % 4;
  }

  lemma GroupBackAndForth(a: Unit, b: Unit, c: Unit, d: Unit)
    ensures Unit0(First(a, b)) == a
    ensures Unit1(First(a, b), Second(b, c)) == b
    ensures Unit2(Second(b, c), Third(c, d)) == c
    ensures Unit3(Third(c, d)) == d
    ensures Unit1(First(a, b), 0) == b <==> b & 0xf == 0
    ensures Unit2(Second(b, c), 0) == c <==> c & 0x3 == 0
  {
  }

  lemma SplitGroup(q: seq<Unit>, x: seq<Octet>)
    requires |q| >= 4
    ensures Split([First(q[0], q[1]), Second(q[1], q[2]), Third(q[2], q[3])] + x) == q[..4] + Split(x)
  {
    GroupBackAndForth(q[0], q[1], q[2], q[3]);
    hide First, Second, Third, Unit0, Unit1, Unit2, Unit3;
    var y := [First(q[0], q[1]), Second(q[1], q[2]), Third(q[2], q[3])] + x;
    assert y[3..] == x;
    assert q[..4] == [q[0], q[1], q[2], q[3]];
  }

  lemma SplitTail3(q: seq<Unit>)
    requires |q| == 3
    ensures Split(Regroup(q)) == q <==> UnusedBitsZero(q[2], 3)
  {
    GroupBackAndForth(q[0], q[1], q[2], 0);
    assert Unit2(Second(q[1], q[2]), 0) == q[2] <==> UnusedBitsZero(q[2], 3);
    hide First, Second, Third, Unit0, Unit1, Unit2, Unit3, UnusedBitsZero;
    assert Split(Regroup(q)) == [q[0], q[1], Unit2(Second(q[1], q[2]), 0)];
  }

  lemma SplitTail2(q: seq<Unit>)
    requires |q| == 2
    ensures Split(Regroup(q)) == q <==> UnusedBitsZero(q[1], 2)
  {
    GroupBackAndForth(q[0], q[1], 0, 0);
    assert Unit1(First(q[0], q[1]), 0) == q[1] <==> UnusedBitsZero(q[1], 2);
    hide First, Second, Third, Unit0, Unit1, Unit2, Unit3, UnusedBitsZero;
    assert Split(Regroup(q)) == [q[0], Unit1(First(q[0], q[1]), 0)];
  }

  lemma {:induction false} SplitInvertsRegroup(q: seq<Unit>)
    ensures Split(Regroup(q)) == q <==> CanonicalUnits(q)
  {
    if |q| >= 4 {
      hide First, Second, Third, Unit0, Unit1, Unit2, Unit3, Split, CanonicalUnits;
      CanonicalAfterGroup(q);
      SplitInvertsRegroup(q[4..]);
      SplitGroup(q, Regroup(q[4..]));
      assert q == q[..4] + q[4..];
      assert (q[..4] + Split(Regroup(q[4..])))[4..] == Split(Regroup(q[4..]));
    } else {
      if |q| == 3 {
        SplitTail3(q);
      } else if |q| == 2 {
        SplitTail2(q);
      } else {
        assert Regroup(q) == [];
      }
    }
  }

  lemma PaddingOfDecoded(s: seq<Octet>)
    requires |Units(s)| % 4 != 1
    ensures Padding(|Decode(s)|) == Pads((4 - |Units(s)| % 4) % 4)
  {
    hide Regroup, Units;
    RegroupLength(Units(s));
    assert (3 - |Decode(s)| % 3) % 3 == (4 - |Units(s)| % 4) % 4;
  }

  lemma EncodeInvertsDecodeOfCanonical(s: seq<Octet>)
    requires Canonical(s)
    ensures Encode(Decode(s)) == s
  {
    hide Split, Regroup, Units, Spell, Padding, CanonicalUnits, Padded, Pads;
    var n := |Units(s)|;
    PaddingIsBehind(s);
    SplitInvertsRegroup(Units(s));
    SpellingOfUnits(s);
    hide Canonical;
    assert s == s[..n] + s[n..];
  }

  lemma PaddingIsBehind(s: seq<Octet>)
    requires Canonical(s)
    ensures Padding(|Decode(s)|) == s[|Units(s)|..]
  {
    hide Units, Padding, Decode, Padded;
    PaddingOfDecoded(s);
    CanonicalPadding(s, |Units(s)|);
  }

  lemma OnlyCanonicalIsReencoded(s: seq<Octet>)
    requires Encode(Decode(s)) == s
    ensures Canonical(s)
  {
    var x := Decode(s);
    UnitsOfSpelling(Split(x), Padding(|x|));
    assert Split(x) == Units(s);
    SplitInvertsRegroup(Units(s));
    PaddingOfDecoded(s);
    assert s[|Split(x)|..] == Padding(|x|);
    CanonicalPadding(s, |Units(s)|);
  }

  /** Re-encoding a decoded text gives the text back exactly when the text is canonical. */
  lemma {:induction false} EncodeInvertsDecodeIffCanonical(s: seq<Octet>)
    ensures Encode(Decode(s)) == s <==> Canonical(s)
  {
    if Canonical(s) {
      EncodeInvertsDecodeOfCanonical(s);
    } else if Encode(Decode(s)) == s {
      OnlyCanonicalIsReencoded(s);
    }
  }

  // ---------------------------------------------------------------- the encoder

  /** The byte that holds bit 6j, the first bit of unit j. */
  function BytePosition(j: nat): (i: nat)
    ensures i == 6 * j / 8
  {
    3 * (j / 4) + (if j % 4 == 0 then 0 else j % 4 - 1)
  }

  /** The unit at position j read straight from its bit position, with zero fill past the end. */
  function UnitAt(x: seq<Octet>, j: nat): Unit
    requires BytePosition(j) < |x|
  {
    var i := BytePosition(j);
    var next := if i + 1 < |x| then x[i + 1] else 0;
    if j % 4 == 0 then Unit0(x[i])
    else if j % 4 == 1 then Unit1(x[i], next)
    else if j % 4 == 2 then Unit2(x[i], next)
    else Unit3(x[i])
  }

  lemma UnitAfterGroup(x: seq<Octet>, j: nat)
    requires |x| >= 3 && j >= 4 && BytePosition(j) < |x|
    ensures BytePosition(j - 4) == BytePosition(j) - 3 && UnitAt(x, j) == UnitAt(x[3..], j - 4)
  {
    hide Unit0, Unit1, Unit2, Unit3;
  }

  lemma SplitAfterGroup(x: seq<Octet>, j: nat)
    requires |x| >= 3 && 4 <= j < |Split(x)|
    ensures Split(x)[j] == Split(x[3..])[j - 4]
  {
    hide Unit0, Unit1, Unit2, Unit3;
  }

  lemma {:induction false} UnitsByPosition(x: seq<Octet>, j: nat)
    requires BytePosition(j) < |x|
    ensures j < |Split(x)| && Split(x)[j] == UnitAt(x, j)
  {
    if |x| >= 3 && j >= 4 {
      hide UnitAt, Split;
      UnitAfterGroup(x, j);
      UnitsByPosition(x[3..], j - 4);
      SplitAfterGroup(x, j);
    } else {
      hide Unit0, Unit1, Unit2, Unit3;
    }
  }

  lemma {:induction false} SpellAppend(q: seq<Unit>, v: Unit)
    ensures Spell(q + [v]) == Spell(q) + [CharOf(v)]
  {
    if q != [] {
      SpellAppend(q[1..], v);
      assert (q + [v])[1..] == q[1..] + [v];
    }
  }

  /** The iterator copy of the encoder followed by its padding loop. */
  method Base64Encode(data: seq<Octet>) returns (os: seq<Octet>)
    ensures os == Encode(data)
    ensures |os| == 4 * ((|data| + 2) / 3)
    ensures forall j :: |Split(data)| <= j < |os| ==> os[j] as int == '=' as int
  {
    hide First, Second, Third, Unit0, Unit1, Unit2, Unit3;
    os := [];
    var j := 0;
    while BytePosition(j) < |data|
      decreases |Split(data)| - j
      invariant j <= |Split(data)|
      invariant BytePosition(j) >= |data| ==> j == |Split(data)|
      invariant os == Spell(Split(data)[..j])
    {
      UnitsByPosition(data, j);
      SpellAppend(Split(data)[..j], UnitAt(data, j));
      assert Split(data)[..j + 1] == Split(data)[..j] + [UnitAt(data, j)];
      os := os + [CharOf(UnitAt(data, j))];
      j := j + 1;
    }
    assert Split(data)[..j] == Split(data);
    var padding := (3 - |data| % 3) % 3;
    var i := 0;
    while i < padding
      invariant i <= padding
      invariant os == Spell(Split(data)) + Pads(i)
    {
      os := os + [PAD];
      i := i + 1;
    }
    EncodedPadding(data);
  }

  // ---------------------------------------------------------------- the decoder

  /** The three bytes of a group from the four buffered units. */
  method CombineGroup(units: array<Octet>, bytes: array<Octet>)
    requires units.Length == 4 && bytes.Length == 3 && units != bytes
    modifies bytes
    ensures bytes[..] == [First(units[0], units[1]),
                                 Second(units[1], units[2]),
                                 Third(units[2], units[3])]
  {
    bytes[0] := (units[0] << 2) + ((units[1] & 0x30) >> 4);
    bytes[1] := ((units[1] & 0xf) << 4) + ((units[2] & 0x3c) >> 2);
    bytes[2] := ((units[2] & 0x3) << 6) + units[3];
  }

  /** Replaces the four buffered characters by their positions in the alphabet, in place. */
  method LookupGroup(units: array<Octet>)
    requires units.Length == 4
    modifies units
    ensures forall k :: 0 <= k < 4 ==> units[k] == Lookup(old(units[k]))
  {
    var i := 0;
    while i < 4
      invariant 0 <= i <= 4
      invariant forall k :: 0 <= k < i ==> units[k] == Lookup(old(units[k]))
      invariant forall k :: i <= k < 4 ==> units[k] == old(units[k])
    {
      units[i] := Lookup(units[i]);
      i := i + 1;
    }
  }

  lemma UnitsStep(s: seq<Octet>, k: nat)
    requires k < |s| && IsBase64(s[k])
    ensures Units(s[k..]) == [Lookup(s[k])] + Units(s[k + 1..])
  {
    assert s[k..][1..] == s[k + 1..];
  }

  lemma NotPad()
    ensures !IsBase64(PAD)
  {
  }

  /** The units of the buffered characters. */
  function Looked(a: seq<Octet>): (q: seq<Octet>)
    ensures |q| == |a|
    ensures forall k :: 0 <= k < |a| ==> q[k] == Lookup(a[k])
  {
    seq(|a|, k requires 0 <= k < |a| => Lookup(a[k]))
  }

  lemma DecodedSoFar(done: seq<Octet>, buffered: seq<Octet>, s: seq<Octet>, k: nat)
    requires k < |s| && IsBase64(s[k])
    ensures done + Regroup(Looked(buffered) + Units(s[k..]))
         == done + Regroup(Looked(buffered + [s[k]]) + Units(s[k + 1..]))
  {
    hide First, Second, Third, Lookup, IsBase64;
    UnitsStep(s, k);
    assert Looked(buffered) + Units(s[k..]) == Looked(buffered + [s[k]]) + Units(s[k + 1..]);
  }

  lemma DecodedGroup(group: seq<Octet>, q: seq<Octet>)
    requires |group| == 4
    ensures Regroup(group + q)
         == [First(group[0], group[1]), Second(group[1], group[2]), Third(group[2], group[3])] + Regroup(q)
  {
    assert (group + q)[4..] == q;
  }

  /** A full buffer: lookup, recombination and the three appends. */
  method DecodeGroup(units: array<Octet>, bytes: array<Octet>, ret: seq<Octet>) returns (out: seq<Octet>)
    requires units.Length == 4 && bytes.Length == 3 && units != bytes
    modifies units, bytes
    ensures forall q :: ret + Regroup(Looked(old(units[..])) + q) == out + Regroup(q)
  {
    hide First, Second, Third, Lookup, IsBase64;
    ghost var a := units[..];
    LookupGroup(units);
    assert units[..] == Looked(a);
    CombineGroup(units, bytes);
    out := ret;
    var i := 0;
    while i < 3
      invariant 0 <= i <= 3
      invariant out == ret + bytes[..i]
    {
      out := out + [bytes[i]];
      i := i + 1;
    }
    assert bytes[..3] == bytes[..];
    forall q ensures ret + Regroup(Looked(a) + q) == out + Regroup(q) {
      DecodedGroup(Looked(a), q);
      assert ret + (bytes[..] + Regroup(q)) == out + Regroup(q);
    }
  }

  /** The decoder's loop and tail. A C++ int holds the length, so a text is below 2^31 characters. */
  method Base64Decode(input: seq<Octet>) returns (ret: seq<Octet>)
    requires |input| < 0x8000_0000
    ensures ret == Decode(input)
  {
    hide First, Second, Third, Lookup, IsBase64, Regroup, Units, Decode;
    assert Decode(input) == Regroup(Units(input)) by {
      DecodeIsRegroup(input);
    }
    var left := |input|;
    var i, pos := 0, 0;
    var units, bytes := new Octet[4], new Octet[3];
    ret := [];
    assert input[pos..] == input && Looked(units[..i]) + Units(input) == Units(input);
    while left != 0 && input[pos] != PAD && IsBase64(input[pos])
      invariant 0 <= pos <= |input| && left == |input| - pos
      invariant 0 <= i < 4
      invariant ret + Regroup(Looked(units[..i]) + Units(input[pos..])) == Decode(input)
      decreases left
    {
      left := left - 1;
      DecodedSoFar(ret, units[..i], input, pos);
      ghost var before := units[..];
      units[i] := input[pos];
      BufferedOneMore(before, i, input[pos]);
      assert units[..] == before[i := input[pos]];
      i, pos := i + 1, pos + 1;
      if i == 4 {
        assert units[..] == units[..i];
        ret := DecodeGroup(units, bytes, ret);
        i := 0;
        assert Looked(units[..i]) + Units(input[pos..]) == Units(input[pos..]);
      }
    }
    NotPad();
    NoUnits(input[pos..]);
    assert Looked(units[..i]) + Units(input[pos..]) == Looked(units[..i]);
    if i != 0 {
      ret := DecodeTail(units, bytes, i, ret);
    } else {
      NothingLeft(ret);
    }
  }

  lemma DecodeIsRegroup(s: seq<Octet>)
    ensures Decode(s) == Regroup(Units(s))
  {
  }

  lemma BufferedOneMore(a: seq<Octet>, i: nat, c: Octet)
    requires i < |a|
    ensures a[i := c][..i + 1] == a[..i] + [c]
  {
  }

  lemma NothingLeft(done: seq<Octet>)
    ensures done + Regroup([]) == done
  {
  }

  /** The ragged last group: zero filling, lookup (the filler becomes 0xFF), recombination, and
      the i - 1 bytes that are kept. */
  method DecodeTail(units: array<Octet>, bytes: array<Octet>, i: nat, ret: seq<Octet>)
    returns (out: seq<Octet>)
    requires units.Length == 4 && bytes.Length == 3 && units != bytes
    requires 0 < i < 4
    modifies units, bytes
    ensures bytes[..] == TailGroup(Looked(old(units[..i])), NPOS_AS_BYTE)
    ensures out == ret + Regroup(Looked(old(units[..i])))
  {
    hide Regroup;
    ghost var q := Looked(units[..i]);
    var j := i;
    while j < 4
      invariant i <= j <= 4
      invariant forall k :: 0 <= k < i ==> units[k] == old(units[k])
      invariant forall k :: i <= k < j ==> units[k] == 0
    {
      units[j] := 0;
      j := j + 1;
    }
    LookupGroup(units);
    CombineGroup(units, bytes);
    FillerIsNeverEmitted(q, NPOS_AS_BYTE);
    out := ret;
    j := 0;
    while j < i - 1
      invariant 0 <= j <= i - 1
      invariant out == ret + bytes[..j]
    {
      out := out + [bytes[j]];
      j := j + 1;
    }
  }
}
