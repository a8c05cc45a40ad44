/**
 * The parts of Go's `strconv` and `strings` packages that the explorer relies on:
 * decimal formatting and parsing of 64-bit integers, `strings.Join` and a
 * one-character `strings.ReplaceAll`. Go strings are byte strings; here one
 * `char` stands for one byte.
 */
module GoText {
  import opened Wrappers

  const MinInt64: int := -0x8000_0000_0000_0000
  const MaxInt64: int := 0x7FFF_FFFF_FFFF_FFFF

  predicate IsInt64(n: int) { MinInt64 <= n <= MaxInt64 }

  /** `strings.Join(parts, sep)`. */
  function Join(parts: seq<string>, sep: string): string
  {
    if |parts| == 0 then ""
    else if |parts| == 1 then parts[0]
    else parts[0] + sep + Join(parts[1..], sep)
  }

  /** Concatenation of all parts (Join with an empty separator). */
  function Concat(parts: seq<string>): string
  {
    if |parts| == 0 then "" else parts[0] + Concat(parts[1..])
  }

  predicate IsDigit(c: char) { '0' <= c <= '9' }

  predicate AllDigits(s: string) { forall i :: 0 <= i < |s| ==> IsDigit(s[i]) }

  function DigitChar(d: nat): (c: char)
    requires d < 10
    ensures IsDigit(c)
  {
    (('0' as int) + d) as char
  }

  function DigitValue(c: char): (d: nat)
    requires IsDigit(c)
    ensures d < 10
  {
    (c as int) - ('0' as int)
  }

  /** The decimal digits of `n`, without leading zeros (`strconv.FormatUint(n, 10)`). */
  function Decimal(n: nat): (r: string)
    ensures |r| > 0 && AllDigits(r)
    ensures |r| > 1 ==> r[0] != '0'
  {
    if n < 10 then [DigitChar(n)] else Decimal(n / 10) + [DigitChar(n % 10)]
  }

  /** `strconv.FormatInt(n, 10)`: a minus sign for negative numbers, then the digits. */
  function FormatInt(n: int): (r: string)
    ensures |r| > 0
    ensures n < 0 <==> r[0] == '-'
    ensures n >= 0 ==> AllDigits(r)
    ensures n < 0 ==> AllDigits(r[1..])
  {
    if n < 0 then "-" + Decimal(-n) else Decimal(n)
  }

  /** The number a string of decimal digits denotes (leading zeros allowed). */
  function DigitsValue(s: string): nat
    requires AllDigits(s)
  {
    if s == [] then 0 else DigitsValue(s[..|s| - 1]) * 10 + DigitValue(s[|s| - 1])
  }

  /**
   * `strconv.ParseInt(s, 10, 64)`, with every error (empty text, a character
   * that is not a digit after the optional sign, a value outside the int64
   * range) folded into None.
   */
  function ParseInt64(s: string): (r: Option<int>)
    ensures r.Some? ==> IsInt64(r.value)
    ensures r.Some? ==> s != [] && (IsDigit(s[0]) || s[0] == '+' || s[0] == '-')
  {
    if s == [] then None
    else
      var negative := s[0] == '-';
      var body := if s[0] == '+' || s[0] == '-' then s[1..] else s;
      if body == [] || !AllDigits(body) then None
      else
        var magnitude: int := DigitsValue(body);
        if negative then
          (if magnitude <= -MinInt64 then Some(-magnitude) else None)
        else
          (if magnitude <= MaxInt64 then Some(magnitude) else None)
  }

  lemma {:induction false} DecimalValue(n: nat)
    ensures DigitsValue(Decimal(n)) == n
  {
    if n >= 10 {
      var r := Decimal(n);
      assert r[..|r| - 1] == Decimal(n / 10);
      DecimalValue(n / 10);
    }
  }

  /** Every int64 survives FormatInt followed by ParseInt64. */
  lemma ParseFormatInt64(n: int)
    requires IsInt64(n)
    ensures ParseInt64(FormatInt(n)) == Some(n)
  {
    var r := FormatInt(n);
    if n < 0 {
      var d := Decimal(-n);
      assert r == "-" + d && r[1..] == d;
      DecimalValue(-n);
      assert DigitsValue(d) == -n;
    } else {
      assert IsDigit(r[0]);
      DecimalValue(n);
    }
  }

  /** `strings.ReplaceAll(s, [from], [to])`: every `from` becomes `to`, nothing else moves. */
  function ReplaceChar(s: string, from: char, to: char): (r: string)
    ensures |r| == |s|
    ensures from != to ==> from !in r
    ensures forall i :: 0 <= i < |s| && s[i] != from ==> r[i] == s[i]
    ensures forall i :: 0 <= i < |s| && s[i] == from ==> r[i] == to
  {
    seq(|s|, i requires 0 <= i < |s| => if s[i] == from then to else s[i])
  }
}
