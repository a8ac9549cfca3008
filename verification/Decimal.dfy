/** `std::to_string` for sizes and `std::stoi`. */
module Decimal {
  import opened Text

  const INT_MAX: int := 0x7FFF_FFFF
  const INT_MIN: int := -0x8000_0000

  /** What an exception of the standard library says. */
  datatype Error = InvalidArgument | OutOfRange

  datatype Result<+T> = Ok(value: T) | Err(error: Error)

  predicate IsDigit(c: char) {
    '0' <= c <= '9'
  }

  function Digit(d: nat): char
    requires d < 10
  {
    ('0' as int + d) as char
  }

  function ToString(n: nat): (s: string)
    ensures s != ""
  {
    if n < 10 then [Digit(n)] else ToString(n / 10) + [Digit(n % 10)]
  }

  /** The longest prefix of digits. */
  function DigitPrefix(s: string): string {
    if s != "" && IsDigit(s[0]) then [s[0]] + DigitPrefix(s[1..]) else ""
  }

  function Value(digits: string): int {
    if digits == "" then 0
    else 10 * Value(digits[..|digits| - 1]) + (digits[|digits| - 1] as int - '0' as int)
  }

  /** `std::stoi`: white space, an optional sign, the longest run of digits; anything may follow. */
  function StoI(s: string): Result<int> {
    var t := SkipSpace(s);
    var negative := t != "" && t[0] == '-';
    var u := if t != "" && (t[0] == '-' || t[0] == '+') then t[1..] else t;
    var digits := DigitPrefix(u);
    var value := if negative then -Value(digits) else Value(digits);
    if digits == "" then Err(InvalidArgument)
    else if value < INT_MIN || INT_MAX < value then Err(OutOfRange)
    else Ok(value)
  }

  lemma {:induction false} ToStringDigits(n: nat)
    ensures forall c :: c in ToString(n) ==> IsDigit(c)
    ensures Value(ToString(n)) == n
  {
    if n < 10 {
      assert ToString(n)[..0] == "";
    } else {
      ToStringDigits(n / 10);
      var s := ToString(n);
      assert s[..|s| - 1] == ToString(n / 10) && s[|s| - 1] == Digit(n % 10);
    }
  }

  lemma {:induction false} DigitPrefixOf(digits: string, rest: string)
    requires forall c :: c in digits ==> IsDigit(c)
    requires rest == "" || !IsDigit(rest[0])
    ensures DigitPrefix(digits + rest) == digits
  {
    if digits == "" {
      assert digits + rest == rest;
    } else {
      assert digits[0] in digits;
      assert forall c :: c in digits[1..] ==> c in digits;
      DigitPrefixOf(digits[1..], rest);
      assert (digits + rest)[1..] == digits[1..] + rest;
    }
  }

  /** Reading back a printed number, with white space before and anything but a digit after: the
      value when it fits in an int, and an exception exactly when it does not. */
  lemma {:induction false} StoIReadsToString(n: nat, rest: string)
    requires rest == "" || !IsDigit(rest[0])
    ensures StoI(" " + ToString(n) + rest) == if n <= 2147483647 then Ok(n) else Err(OutOfRange)
  {
    StoIReadsSigned(" ", "", n, rest);
    assert " " + "" + ToString(n) + rest == " " + ToString(n) + rest;
  }

  /** With any white space and either sign before it. */
  lemma {:induction false} StoIReadsSigned(gap: string, sign: string, n: nat, rest: string)
    requires (forall c :: c in gap ==> IsSpace(c)) && (sign == "" || sign == "+" || sign == "-")
    requires rest == "" || !IsDigit(rest[0])
    ensures var m := if sign == "-" then -(n as int) else n as int;
            StoI(gap + sign + ToString(n) + rest)
            == if -2147483648 <= m <= 2147483647 then Ok(m) else Err(OutOfRange)
  {
    hide ToString, SkipSpace, Value, DigitPrefix;
    var digits := ToString(n);
    ToStringDigits(n);
    assert digits[0] in digits;
    SignedShape(sign, digits, rest);
    SkipSpaceOf(gap, sign + digits + rest);
    assert gap + sign + digits + rest == gap + (sign + digits + rest);
    DigitPrefixOf(digits, rest);
  }

  lemma SignedShape(sign: string, digits: string, rest: string)
    requires (sign == "" || sign == "+" || sign == "-") && digits != ""
    ensures var t := sign + digits + rest;
            && t != "" && t[0] == (if sign == "" then digits[0] else sign[0])
            && (if sign == "" then t else t[1..]) == digits + rest
  {
    assert sign == "" ==> sign + digits + rest == digits + rest;
  }

  /** A text in which no digit follows the white space and the sign is no number. */
  lemma {:induction false} StoIRefuses(gap: string, sign: string, rest: string)
    requires (forall c :: c in gap ==> IsSpace(c)) && (sign == "" || sign == "+" || sign == "-")
    requires rest == "" || (!IsDigit(rest[0]) && (sign == "" ==> !IsSpace(rest[0]) && rest[0] !in "+-"))
    ensures StoI(gap + sign + rest) == Err(InvalidArgument)
  {
    hide SkipSpace, Value;
    SkipSpaceOf(gap, sign + rest);
    assert gap + sign + rest == gap + (sign + rest);
    assert sign == "" ==> sign + rest == rest;
    assert sign != "" ==> (sign + rest)[1..] == rest;
  }
}
