/** Integers in decimal notation, as numerals are written and read back. */
module Decimals {

  predicate IsDigit(c: char) {
    '0' <= c <= '9'
  }

  predicate DigitsFrom(text: string, i: nat)
    requires i <= |text|
    decreases |text| - i
  {
    i == |text| || (IsDigit(text[i]) && DigitsFrom(text, i + 1))
  }

  /** Where the digits of a numeral begin. */
  function DigitsStart(text: string): nat {
    if text != "" && text[0] == '-' then 1 else 0
  }

  predicate IsNumeral(text: string) {
    DigitsStart(text) < |text| && DigitsFrom(text, DigitsStart(text))
  }

  /** The decimal value of the characters from `start` to `end`. */
  function DecimalValue(text: string, start: nat, end: nat): int
    requires end <= |text|
    decreases end
  {
    if end <= start then 0 else 10 * DecimalValue(text, start, end - 1) + (text[end - 1] as int - '0' as int)
  }

  function IntOf(text: string): int {
    var size := DecimalValue(text, DigitsStart(text), |text|);
    if DigitsStart(text) == 1 then -size else size
  }

  function Decimal(n: nat): (text: string)
    ensures text != ""
  {
    var digit := ['0' + (n % 10) as char];
    if n < 10 then digit else Decimal(n / 10) + digit
  }

  function IntText(n: int): string {
    if n < 0 then "-" + Decimal(-n) else Decimal(n)
  }

  lemma {:induction false} DigitsFromIsAll(text: string, i: nat)
    requires i <= |text|
    ensures DigitsFrom(text, i) <==> forall k | i <= k < |text| :: IsDigit(text[k])
    decreases |text| - i
  {
    if i == |text| {
    } else {
      DigitsFromIsAll(text, i + 1);
    }
  }

  lemma {:induction false} DecimalIsDigits(n: nat)
    ensures forall k | 0 <= k < |Decimal(n)| :: IsDigit(Decimal(n)[k])
  {
    if n >= 10 {
      DecimalIsDigits(n / 10);
    }
  }

  lemma {:induction false} DecimalValueIsLocal(text: string, start: nat, end: nat, other: string, shift: nat)
    requires end <= |text| && end + shift <= |other| && start <= end
    requires forall k | start <= k < end :: text[k] == other[k + shift]
    ensures DecimalValue(text, start, end) == DecimalValue(other, start + shift, end + shift)
    decreases end
  {
    if start == end {
    } else {
      DecimalValueIsLocal(text, start, end - 1, other, shift);
    }
  }

  lemma {:induction false} DecimalRoundTrip(n: nat)
    ensures DecimalValue(Decimal(n), 0, |Decimal(n)|) == n
  {
    if n >= 10 {
      var front := Decimal(n / 10);
      DecimalRoundTrip(n / 10);
      DecimalValueIsLocal(front, 0, |front|, Decimal(n), 0);
    }
  }

  /** Writing an integer in decimal and reading it back gives the integer. */
  lemma IntRoundTrip(n: int)
    ensures IsNumeral(IntText(n)) && IntOf(IntText(n)) == n
  {
    var size := if n < 0 then -n else n;
    var digits, text := Decimal(size), IntText(n);
    DecimalIsDigits(size);
    DecimalRoundTrip(size);
    DigitsFromIsAll(text, DigitsStart(text));
    assert IsDigit(digits[0]);
    DecimalValueIsLocal(digits, 0, |digits|, text, DigitsStart(text));
  }

  /** Different numbers are written differently. */
  lemma DecimalIsInjective(m: nat, n: nat)
    requires Decimal(m) == Decimal(n)
    ensures m == n
  {
    DecimalRoundTrip(m);
    DecimalRoundTrip(n);
  }
}
