/** Decimal digits, and the smaller of two numbers. */
module Numbers {

  function Min(a: int, b: int): int {
    if a < b then a else b
  }

  function Digit(n: nat): char
    requires n < 10
  {
    '0' + n as char
  }

  /** A number in decimal. */
  function Decimal(n: nat): string {
    if n < 10 then [Digit(n)] else Decimal(n / 10) + [Digit(n % 10)]
  }

  predicate IsDigit(c: char) { '0' <= c <= '9' }

  predicate AllDigits(text: string) { forall i :: 0 <= i < |text| ==> IsDigit(text[i]) }

  function DigitsValue(text: string): nat
    requires AllDigits(text)
  {
    if text == "" then 0
    else DigitsValue(text[..|text| - 1]) * 10 + (text[|text| - 1] as int - '0' as int)
  }

  lemma {:induction false} DecimalDigits(n: nat)
    ensures Decimal(n) != "" && AllDigits(Decimal(n)) && DigitsValue(Decimal(n)) == n
    ensures Decimal(n)[0] == '0' <==> n == 0
    ensures n == 0 ==> |Decimal(n)| == 1
  {
    if n >= 10 {
      DecimalDigits(n / 10);
      var text := Decimal(n);
      assert text[..|text| - 1] == Decimal(n / 10);
    } else {
      assert Decimal(n)[..0] == "";
    }
  }

  lemma {:induction false} DigitsDecimal(text: string)
    requires text != "" && AllDigits(text) && (text[0] != '0' || |text| == 1)
    ensures Decimal(DigitsValue(text)) == text
    ensures DigitsValue(text) == 0 <==> text == "0"
  {
    var n := |text| - 1;
    var d := text[n] as int - '0' as int;
    assert IsDigit(text[n]);
    assert Digit(d) == text[n];
    assert text == text[..n] + [text[n]];
    if n > 0 {
      DigitsDecimal(text[..n]);
      assert DigitsValue(text) / 10 == DigitsValue(text[..n]) && DigitsValue(text) % 10 == d;
      assert text[..n] != "0";
    } else {
      assert text[..n] == "";
    }
  }
}
