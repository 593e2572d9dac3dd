/**
 * Decimal digit strings: the value JavaScript's unary `+` gives a string of
 * ASCII digits, and the text a template literal gives a non-negative integer.
 */
module Decimal {

  predicate IsDigit(c: char) {
    '0' <= c <= '9'
  }

  predicate AllDigits(s: string) {
    forall i :: 0 <= i < |s| ==> IsDigit(s[i])
  }

  /** A non-empty digit string without a leading zero (except "0" itself). */
  predicate Canonical(s: string) {
    |s| > 0 && AllDigits(s) && (s[0] == '0' ==> |s| == 1)
  }

  function DigitValue(c: char): (d: nat)
    requires IsDigit(c)
    ensures d < 10
  {
    c as int - '0' as int
  }

  function DigitChar(d: nat): (c: char)
    requires d < 10
    ensures IsDigit(c) && DigitValue(c) == d
  {
    (d + '0' as int) as char
  }

  /** `+s` for a string of digits: the number it denotes in base ten. */
  function ValueOf(s: string): (n: nat)
    requires AllDigits(s)
    ensures |s| > 0 && s[0] != '0' ==> n > 0
    decreases |s|
  {
    if |s| == 0 then 0
    else
      var init := s[..|s| - 1];
      assert |init| > 0 ==> init[0] == s[0];
      ValueOf(init) * 10 + DigitValue(s[|s| - 1])
  }

  /** `${n}` for a non-negative integer: its shortest base-ten spelling. */
  function Render(n: nat): (s: string)
    ensures Canonical(s)
    ensures n > 0 ==> s[0] != '0'
  {
    if n < 10 then [DigitChar(n)]
    else Render(n / 10) + [DigitChar(n % 10)]
  }

  /** Reading back a rendered number gives the number. */
  lemma {:induction false} ValueOfRender(n: nat)
    ensures ValueOf(Render(n)) == n
  {
    var s := Render(n);
    if n < 10 {
      assert s[..|s| - 1] == [];
    } else {
      assert s[..|s| - 1] == Render(n / 10);
      ValueOfRender(n / 10);
    }
  }

  /** Rendering the value of a canonical digit string gives the string back. */
  lemma {:induction false} RenderValueOf(s: string)
    requires Canonical(s)
    ensures Render(ValueOf(s)) == s
    decreases |s|
  {
    var init := s[..|s| - 1];
    if |s| == 1 {
      assert init == [];
      assert ValueOf(s) == DigitValue(s[0]);
    } else {
      assert init[0] == s[0];
      assert Canonical(init);
      RenderValueOf(init);
      var n := ValueOf(s);
      assert n == ValueOf(init) * 10 + DigitValue(s[|s| - 1]);
      assert n / 10 == ValueOf(init) && n % 10 == DigitValue(s[|s| - 1]);
      assert n >= 10;
      assert s == init + [s[|s| - 1]];
    }
  }
}
