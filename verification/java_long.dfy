/** The parts of the Java language the formatter relies on: the 64-bit `long`
    type, nullable strings, and the decimal text that string concatenation
    (`value + suffix`, i.e. `Long.toString`) produces for a `long`. */
module JavaLong {
  import opened Wrappers

  const LONG_MIN: int := -0x8000_0000_0000_0000
  const LONG_MAX: int := 0x7fff_ffff_ffff_ffff

  /** A Java `long`: a signed two's-complement 64-bit integer. */
  type Long = v: int | LONG_MIN <= v <= LONG_MAX

  /** A Java `String` reference, which may be null. */
  type JString = Option<string>

  /** The text that string concatenation appends for a `String` operand:
      a null reference is rendered as the four letters "null". */
  function Text(s: JString): (r: string)
    ensures s.Some? ==> r == s.value
    ensures s.None? ==> r == "null"
  {
    match s
    case None => "null"
    case Some(t) => t
  }

  predicate IsDigit(c: char) {
    '0' <= c <= '9'
  }

  predicate AllDigits(s: string) {
    forall i :: 0 <= i < |s| ==> IsDigit(s[i])
  }

  /** Whether `s` may follow a rendered number without being read as part of it. */
  predicate StartsWithNonDigit(s: string) {
    s == [] || !IsDigit(s[0])
  }

  function DigitChar(d: nat): (c: char)
    requires d < 10
    ensures IsDigit(c) && c as int - '0' as int == d
  {
    ('0' as int + d) as char
  }

  function DigitValue(c: char): (d: nat)
    requires IsDigit(c)
    ensures d < 10
  {
    c as int - '0' as int
  }

  /** The decimal digits of a natural number, most significant first. */
  function NatToDecimal(n: nat): (r: string)
    ensures |r| >= 1 && AllDigits(r)
    ensures r[0] == '0' <==> n == 0
    ensures n == 0 ==> r == "0"
    decreases n
  {
    if n < 10 then [DigitChar(n)] else NatToDecimal(n / 10) + [DigitChar(n % 10)]
  }

  /** The number a string of decimal digits denotes (the reading direction
      of `NatToDecimal`). */
  function DecimalValue(s: string): nat
    requires AllDigits(s)
  {
    if s == [] then 0 else DecimalValue(s[..|s| - 1]) * 10 + DigitValue(s[|s| - 1])
  }

  /** `Long.toString(v)`: a minus sign for negative values followed by the
      digits of the magnitude, with no leading zeros and no plus sign. */
  function LongToString(v: Long): (r: string)
    ensures |r| >= 1
    ensures r[0] == '-' <==> v < 0
    ensures v < 0 ==> |r| >= 2 && AllDigits(r[1..]) && r[1] != '0'
    ensures v >= 0 ==> AllDigits(r) && (r[0] == '0' <==> v == 0)
    ensures v == 0 ==> r == "0"
  {
    if v < 0 then "-" + NatToDecimal(-(v as int)) else NatToDecimal(v)
  }

  lemma {:induction false} DecimalRoundTrip(n: nat)
    ensures DecimalValue(NatToDecimal(n)) == n
    decreases n
  {
    if n >= 10 {
      var s := NatToDecimal(n);
      assert s[..|s| - 1] == NatToDecimal(n / 10);
      DecimalRoundTrip(n / 10);
    }
  }

  function Pow10(k: nat): (r: nat)
    ensures r >= 1
  {
    if k == 0 then 1 else 10 * Pow10(k - 1)
  }

  lemma {:induction false} NatToDecimalLength(n: nat, k: nat)
    requires 1 <= k && n < Pow10(k)
    ensures |NatToDecimal(n)| <= k
    decreases n
  {
    if n >= 10 {
      assert k >= 2;
      NatToDecimalLength(n / 10, k - 1);
    }
  }

  /** A `long` never renders to more than 20 characters
      ("-9223372036854775808" is the longest). */
  lemma LongToStringLength(v: Long)
    ensures |LongToString(v)| <= 20
  {
    assert Pow10(5) == 100_000;
    assert Pow10(10) == 10_000_000_000;
    assert Pow10(15) == 1_000_000_000_000_000;
    assert Pow10(19) == 10_000_000_000_000_000_000;
    if v < 0 {
      NatToDecimalLength(-(v as int), 19);
    } else {
      NatToDecimalLength(v, 19);
    }
  }

  /** The number of leading decimal digits of `s`. */
  function DigitRun(s: string): (k: nat)
    ensures k <= |s|
    ensures AllDigits(s[..k]) && StartsWithNonDigit(s[k..])
  {
    if s == [] || !IsDigit(s[0]) then 0 else 1 + DigitRun(s[1..])
  }

  lemma {:induction false} DigitRunOfConcat(d: string, t: string)
    requires AllDigits(d) && StartsWithNonDigit(t)
    ensures DigitRun(d + t) == |d|
  {
    if d != [] {
      assert (d + t)[1..] == d[1..] + t;
      DigitRunOfConcat(d[1..], t);
    }
  }

  /** Splits off the longest run of leading digits of `t` and reads it as a
      number; `None` when `t` does not start with a digit. */
  function SplitDigits(t: string): Option<(nat, string)> {
    var k := DigitRun(t);
    if k == 0 then None else Some((DecimalValue(t[..k]), t[k..]))
  }

  /** Splits a string into the integer it starts with (an optional minus sign
      and the longest run of digits after it) and the text that follows;
      `None` when it does not start with a number. */
  function SplitNumber(s: string): Option<(int, string)> {
    if |s| > 0 && s[0] == '-' then
      match SplitDigits(s[1..])
      case None => None
      case Some((m, r)) => Some((-(m as int), r))
    else
      match SplitDigits(s)
      case None => None
      case Some((m, r)) => Some((m as int, r))
  }

  lemma SplitDigitsOfConcat(d: string, rest: string)
    requires |d| >= 1 && AllDigits(d) && StartsWithNonDigit(rest)
    ensures SplitDigits(d + rest) == Some((DecimalValue(d), rest))
  {
    var t := d + rest;
    DigitRunOfConcat(d, rest);
    assert t[..|d|] == d && t[|d|..] == rest;
  }

  lemma SplitNegative(n: nat, rest: string)
    requires StartsWithNonDigit(rest)
    ensures SplitNumber("-" + NatToDecimal(n) + rest) == Some((-(n as int), rest))
  {
    var d := NatToDecimal(n);
    var s := "-" + d + rest;
    assert s[0] == '-' && s[1..] == d + rest;
    SplitDigitsOfConcat(d, rest);
    DecimalRoundTrip(n);
  }

  lemma SplitNonNegative(n: nat, rest: string)
    requires StartsWithNonDigit(rest)
    ensures SplitNumber(NatToDecimal(n) + rest) == Some((n as int, rest))
  {
    var d := NatToDecimal(n);
    assert (d + rest)[0] != '-';
    SplitDigitsOfConcat(d, rest);
    DecimalRoundTrip(n);
  }

  /** A rendered `long` followed by text that does not start with a digit
      can be split back into the value and that text. */
  lemma SplitNumberRoundTrip(v: Long, rest: string)
    requires StartsWithNonDigit(rest)
    ensures SplitNumber(LongToString(v) + rest) == Some((v, rest))
  {
    if v < 0 {
      SplitNegative(-(v as int), rest);
    } else {
      SplitNonNegative(v, rest);
    }
  }

  /** Reading back the text of any `long` gives the same value, with nothing left over. */
  lemma LongToStringRoundTrip(v: Long)
    ensures SplitNumber(LongToString(v)) == Some((v as int, ""))
  {
    SplitNumberRoundTrip(v, "");
    assert LongToString(v) + "" == LongToString(v);
  }

  /** Distinct values never share a rendering. */
  lemma LongToStringInjective(a: Long, b: Long)
    ensures LongToString(a) == LongToString(b) <==> a == b
  {
    if LongToString(a) == LongToString(b) {
      LongToStringRoundTrip(a);
      LongToStringRoundTrip(b);
    }
  }
}
