/** Decimal notation of natural numbers, as a template literal prints an integer. */
module Decimal {

  function Digits(n: nat): (ds: seq<nat>)
    ensures ds != [] && forall i :: 0 <= i < |ds| ==> ds[i] < 10
  {
    if n < 10 then [n] else Digits(n / 10) + [n % 10]
  }

  function Value(ds: seq<nat>): nat {
    if ds == [] then 0 else Value(ds[..|ds| - 1]) * 10 + ds[|ds| - 1]
  }

  lemma {:induction false} ValueOfDigits(n: nat)
    ensures Value(Digits(n)) == n
  {
    if n >= 10 {
      ValueOfDigits(n / 10);
      assert (Digits(n / 10) + [n % 10])[..|Digits(n / 10)|] == Digits(n / 10);
    }
  }

  /** No digit is written before the first that counts, and zero is one digit. */
  lemma {:induction false} NoLeadingZero(n: nat)
    ensures n > 0 ==> Digits(n)[0] != 0
    ensures Digits(0) == [0]
  {
    if n >= 10 { NoLeadingZero(n / 10); }
  }

  predicate DigitChar(c: char) {
    '0' <= c <= '9'
  }

  /** `${n}` */
  function DecimalString(n: nat): (s: string)
    ensures s != [] && forall i :: 0 <= i < |s| ==> DigitChar(s[i])
  {
    var ds := Digits(n);
    seq(|ds|, i requires 0 <= i < |ds| => '0' + ds[i] as char)
  }

  function DigitValue(c: char): nat
    requires DigitChar(c)
  {
    c as int - '0' as int
  }

  function DigitValues(s: string): seq<nat>
    requires forall i :: 0 <= i < |s| ==> DigitChar(s[i])
  {
    seq(|s|, i requires 0 <= i < |s| => DigitValue(s[i]))
  }

  function ParseDigits(s: string): nat
    requires forall i :: 0 <= i < |s| ==> DigitChar(s[i])
  {
    Value(DigitValues(s))
  }

  lemma ParseInvertsDecimal(n: nat)
    ensures ParseDigits(DecimalString(n)) == n
  {
    ValueOfDigits(n);
    assert DigitValues(DecimalString(n)) == Digits(n);
  }
}
