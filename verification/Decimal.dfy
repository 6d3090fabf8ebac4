/** Decimal numerals as Rust prints and parses them; text is its bytes. */
module Decimal {
  import opened Wrappers
  import opened Bytes

  const ZERO: Byte := 48

  predicate IsDigit(b: Byte) {
    48 <= b <= 57
  }

  predicate AllDigits(t: seq<Byte>) {
    forall i :: 0 <= i < |t| ==> IsDigit(t[i])
  }

  function Digits(n: nat): (t: seq<Byte>)
    ensures t != [] && AllDigits(t)
    ensures t[0] == ZERO ==> n == 0
  {
    if n < 10 then [48 + n] else Digits(n / 10) + [48 + n % 10]
  }

  /** The number a string of decimal digits denotes, leading zeros allowed. */
  function DigitsValue(t: seq<Byte>): Option<nat> {
    if t == [] then Some(0)
    else
      var high :- DigitsValue(t[..|t| - 1]);
      var d := t[|t| - 1];
      if IsDigit(d) then Some(10 * high + (d - 48)) else None
  }

  lemma {:induction false} DigitsReadBack(n: nat)
    ensures DigitsValue(Digits(n)) == Some(n)
  {
    var s := Digits(n);
    if n < 10 {
      assert s[..0] == [];
    } else {
      DigitsReadBack(n / 10);
      assert s[..|s| - 1] == Digits(n / 10);
    }
  }

  lemma {:induction false} DigitsHaveValue(t: seq<Byte>)
    ensures DigitsValue(t).Some? <==> AllDigits(t)
  {
    if t != [] {
      var u := t[..|t| - 1];
      DigitsHaveValue(u);
      assert forall i :: 0 <= i < |u| ==> u[i] == t[i];
    }
  }

  /** A numeral: digits without a superfluous leading zero. */
  predicate IsNumeral(t: seq<Byte>) {
    t != [] && AllDigits(t) && (t[0] == ZERO ==> |t| == 1)
  }

  /** A numeral that does not start with zero denotes no less than one. */
  lemma {:induction false} NumeralPositive(t: seq<Byte>)
    requires t != [] && AllDigits(t) && t[0] != ZERO
    ensures DigitsValue(t).Some? && DigitsValue(t).value >= 1
  {
    DigitsHaveValue(t);
    if |t| > 1 {
      var u := t[..|t| - 1];
      assert u[0] == t[0] && forall i :: 0 <= i < |u| ==> u[i] == t[i];
      NumeralPositive(u);
    } else {
      assert t[..0] == [];
    }
  }

  /** Numerals are exactly what is printed. */
  lemma {:induction false} NumeralIsPrinted(t: seq<Byte>)
    requires IsNumeral(t)
    ensures DigitsValue(t).Some? && t == Digits(DigitsValue(t).value)
  {
    DigitsHaveValue(t);
    if |t| == 1 {
      assert t[..0] == [];
    } else {
      var u := t[..|t| - 1];
      assert u[0] == t[0] && forall i :: 0 <= i < |u| ==> u[i] == t[i];
      NumeralIsPrinted(u);
      NumeralPositive(u);
      assert t == u + [t[|t| - 1]];
    }
  }
}
