/**
 Shape ids. A new sticker is keyed by the decimal rendering of the current
 time in milliseconds (`Date.now().toString()`). The clock reading is a
 parameter of the model; this module defines the rendering, its inverse, and
 the consequence that distinct clock readings give distinct ids.
 */
module ShapeIds {

  predicate IsDigit(c: char) {
    '0' <= c <= '9'
  }

  predicate AllDigits(s: string) {
    forall i :: 0 <= i < |s| ==> IsDigit(s[i])
  }

  function DigitValue(c: char): (d: nat)
    requires IsDigit(c)
    ensures d < 10
  {
    (c as int) - ('0' as int)
  }

  function Digit(d: nat): (c: char)
    requires d < 10
    ensures IsDigit(c)
    ensures DigitValue(c) == d
  {
    (('0' as int) + d) as char
  }

  /** Decimal rendering of a non-negative integer, most significant digit first. */
  function DecimalString(n: nat): (s: string)
    ensures |s| > 0
    ensures AllDigits(s)
    ensures (s[0] == '0') == (n == 0)
    decreases n
  {
    if n < 10 then [Digit(n)] else DecimalString(n / 10) + [Digit(n % 10)]
  }

  /** Value of a string of decimal digits; the empty string reads as 0. */
  function ParseDecimal(s: string): (n: nat)
    requires AllDigits(s)
    decreases |s|
  {
    if |s| == 0 then 0 else 10 * ParseDecimal(s[..|s| - 1]) + DigitValue(s[|s| - 1])
  }

  /** Reading back a rendered number gives the number. */
  lemma {:induction false} ParseDecimalString(n: nat)
    ensures ParseDecimal(DecimalString(n)) == n
    decreases n
  {
    var s := DecimalString(n);
    if n < 10 {
      assert s[..|s| - 1] == [];
    } else {
      assert s[..|s| - 1] == DecimalString(n / 10);
      assert s[|s| - 1] == Digit(n % 10);
      ParseDecimalString(n / 10);
    }
  }

  /** The id a sticker inserted at clock reading `now` receives. */
  function ShapeId(now: nat): (id: string)
    ensures id != ""
    ensures AllDigits(id)
  {
    DecimalString(now)
  }

  /** Two insertions at different milliseconds never share an id. */
  lemma ShapeIdInjective(t1: nat, t2: nat)
    ensures ShapeId(t1) == ShapeId(t2) <==> t1 == t2
  {
    ParseDecimalString(t1);
    ParseDecimalString(t2);
  }
}
