/**
 Bytes and the decimal rendering Rust's `{}` formatter gives an integer,
 together with a parser that inverts it.
 */
module Decimal {

  /** Rust `u8`. */
  type Byte = x: int | 0 <= x < 256

  datatype Option<T> = None | Some(value: T)

  const ZERO: Byte := 48   // '0'
  const MINUS: Byte := 45  // '-'

  predicate IsDigit(b: Byte) {
    ZERO <= b < ZERO + 10
  }

  predicate AllDigits(s: seq<Byte>) {
    forall i :: 0 <= i < |s| ==> IsDigit(s[i])
  }

  /** Decimal digits of `n`, most significant first, no leading zero. */
  function NatDigits(n: nat): (r: seq<Byte>)
    ensures 1 <= |r|
    ensures AllDigits(r)
    ensures 1 < |r| ==> r[0] != ZERO
    decreases n
  {
    if n < 10 then [ZERO + n] else NatDigits(n / 10) + [ZERO + n % 10]
  }

  /** The value of a string of decimal digits. */
  function DigitsValue(s: seq<Byte>): nat
    requires AllDigits(s)
    decreases |s|
  {
    if |s| == 0 then 0 else 10 * DigitsValue(s[..|s| - 1]) + (s[|s| - 1] - ZERO)
  }

  lemma {:induction false} DigitsValueOfNatDigits(n: nat)
    ensures DigitsValue(NatDigits(n)) == n
    decreases n
  {
    if n >= 10 {
      var d := NatDigits(n);
      assert d[..|d| - 1] == NatDigits(n / 10);
      DigitsValueOfNatDigits(n / 10);
    }
  }

  /** `n` as Rust's `{}` writes it: an optional '-' and the digits of |n|. */
  function IntToDecimal(n: int): (r: seq<Byte>)
    ensures 1 <= |r|
    ensures r[0] == MINUS <==> n < 0
    ensures n < 0 ==> AllDigits(r[1..]) && 1 < |r|
    ensures 0 <= n ==> AllDigits(r)
    ensures forall i :: 0 <= i < |r| ==> r[i] == MINUS || IsDigit(r[i])
  {
    if n < 0 then [MINUS] + NatDigits(-n) else NatDigits(n)
  }

  /** Reads back what `IntToDecimal` writes; anything else is `None`. */
  function ParseDecimal(s: seq<Byte>): Option<int> {
    if 1 < |s| && s[0] == MINUS && AllDigits(s[1..]) then Some(0 - DigitsValue(s[1..]) as int)
    else if 0 < |s| && AllDigits(s) then Some(DigitsValue(s) as int)
    else None
  }

  lemma DecimalRoundTrip(n: int)
    ensures ParseDecimal(IntToDecimal(n)) == Some(n)
  {
    if n < 0 {
      assert IntToDecimal(n)[1..] == NatDigits(-n);
      DigitsValueOfNatDigits(-n);
    } else {
      DigitsValueOfNatDigits(n);
    }
  }

  /** Distinct integers render differently. */
  lemma DecimalInjective(m: int, n: int)
    requires IntToDecimal(m) == IntToDecimal(n)
    ensures m == n
  {
    DecimalRoundTrip(m);
    DecimalRoundTrip(n);
  }
}
