/**
 * strconv.ParseInt(s, 10, 64) and its inverse strconv.FormatInt(n, 10), as
 * the Athena result conversion uses them to read a view count.
 */
module Strconv {
  import opened Wrappers

  const MinInt64: int := -0x8000_0000_0000_0000
  const MaxInt64: int := 0x7FFF_FFFF_FFFF_FFFF

  predicate IsDigit(c: char)
  {
    '0' <= c <= '9'
  }

  predicate AllDigits(s: string)
  {
    forall i :: 0 <= i < |s| ==> IsDigit(s[i])
  }

  /** The value of a string of decimal digits. */
  function DigitsValue(s: string): (v: nat)
    requires AllDigits(s)
    decreases |s|
  {
    if |s| == 0 then 0
    else DigitsValue(s[..|s| - 1]) * 10 + (s[|s| - 1] as int - '0' as int)
  }

  /**
   * ParseInt in base 10 with a 64-bit result: an optional sign, then at least
   * one digit and nothing else (base 10 admits no '_'), in range.
   */
  function ParseInt64(s: string): (r: Option<int>)
    ensures r.Some? ==> MinInt64 <= r.value <= MaxInt64
    ensures r.Some? ==> |s| > 0 && forall i :: 0 <= i < |s| ==> IsDigit(s[i]) || (i == 0 && (s[0] == '+' || s[0] == '-'))
  {
    if s == "" then None
    else
      var digits := if s[0] == '+' || s[0] == '-' then s[1..] else s;
      if digits == "" || !AllDigits(digits) then None
      else
        var magnitude: int := DigitsValue(digits);
        var n: int := if s[0] == '-' then -magnitude else magnitude;
        if MinInt64 <= n <= MaxInt64 then Some(n) else None
  }

  /** The decimal digits of v, with no leading zero. */
  function NatDigits(v: nat): (s: string)
    ensures |s| > 0 && AllDigits(s)
    ensures |s| > 1 ==> s[0] != '0'
    decreases v
  {
    if v < 10 then [('0' as int + v) as char]
    else NatDigits(v / 10) + [('0' as int + v % 10) as char]
  }

  /** strconv.FormatInt(n, 10). */
  function FormatInt(n: int): string
  {
    if n < 0 then "-" + NatDigits(-n) else NatDigits(n)
  }

  lemma {:induction false} DigitsValueOfNatDigits(v: nat)
    ensures DigitsValue(NatDigits(v)) == v
    decreases v
  {
    if v >= 10 {
      DigitsValueOfNatDigits(v / 10);
      var s := NatDigits(v);
      assert s[..|s| - 1] == NatDigits(v / 10);
    }
  }

  /** Reading back a formatted 64-bit integer gives the integer. */
  lemma ParseFormatInt64(n: int)
    requires MinInt64 <= n <= MaxInt64
    ensures ParseInt64(FormatInt(n)) == Some(n)
  {
    if n < 0 {
      DigitsValueOfNatDigits(-n);
      assert FormatInt(n)[1..] == NatDigits(-n);
    } else {
      DigitsValueOfNatDigits(n);
    }
  }

  /** Anything that is not a signed run of digits is refused, e.g. "bad_number" or " 12". */
  lemma ParseRejectsNonDigits(s: string, i: nat)
    requires i < |s| && !IsDigit(s[i]) && !(i == 0 && (s[0] == '+' || s[0] == '-'))
    ensures ParseInt64(s) == None
  {
  }
}
