/** Decimal text of integers: the `ToString()` and `int.TryParse` the settings and view models use. */
module Decimal {
  import opened Wrappers
  import opened FixedWidth

  predicate IsDigit(c: char) {
    '0' <= c <= '9'
  }

  predicate AllDigits(s: string) {
    forall i :: 0 <= i < |s| ==> IsDigit(s[i])
  }

  function DigitChar(d: nat): (c: char)
    requires d < 10
    ensures IsDigit(c) && c as int - '0' as int == d
  {
    ('0' as int + d) as char
  }

  /** Decimal digits of `n`, most significant first, without leading zeros. */
  function NatToString(n: nat): (s: string)
    ensures |s| >= 1 && AllDigits(s)
    ensures s[0] == '0' ==> n == 0
  {
    if n < 10 then [DigitChar(n)] else NatToString(n / 10) + [DigitChar(n % 10)]
  }

  /** `Int32.ToString()` in an invariant culture: a leading '-' for negatives. */
  function IntToString(i: int): (s: string)
    ensures |s| >= 1
    ensures s[0] == '-' <==> i < 0
    ensures i >= 0 ==> AllDigits(s)
    ensures i < 0 ==> AllDigits(s[1..])
  {
    if i < 0 then "-" + NatToString(-i) else NatToString(i)
  }

  /** The value of a run of decimal digits (leading zeros allowed). */
  function DigitsValue(s: string): (n: nat)
    requires AllDigits(s)
  {
    if |s| == 0 then 0 else 10 * DigitsValue(s[..|s| - 1]) + (s[|s| - 1] as int - '0' as int)
  }

  /** `int.TryParse` applied to a non-empty run of ASCII digits: it fails only on overflow. */
  function ParseInt32Digits(s: string): (r: Option<int32>)
    requires |s| >= 1 && AllDigits(s)
    ensures r.Some? <==> DigitsValue(s) <= Int32Max
    ensures r.Some? ==> r.value as int == DigitsValue(s) && r.value >= 0
  {
    var v := DigitsValue(s);
    if v <= Int32Max then Some(v as int32) else None
  }

  /** Reading back the digits that `NatToString` wrote gives the number. */
  lemma {:induction false} NatToStringRoundTrip(n: nat)
    ensures DigitsValue(NatToString(n)) == n
  {
    if n >= 10 {
      var s := NatToString(n);
      NatToStringRoundTrip(n / 10);
      assert s[..|s| - 1] == NatToString(n / 10);
    }
  }

  /** Decimal text determines the number: distinct naturals have distinct text. */
  lemma NatToStringInjective(a: nat, b: nat)
    ensures NatToString(a) == NatToString(b) ==> a == b
  {
    NatToStringRoundTrip(a);
    NatToStringRoundTrip(b);
  }

  /** Every non-negative `int32` survives formatting followed by `int.TryParse`. */
  lemma Int32TextRoundTrip(i: int32)
    requires i >= 0
    ensures ParseInt32Digits(IntToString(i as int)) == Some(i)
  {
    NatToStringRoundTrip(i as int);
  }
}
