/** Unsigned integers in decimal, as `%lu` and `std::to_chars` print them. */
module DecimalText {

  predicate IsDigit(c: char) { '0' <= c <= '9' }

  function Decimal(n: nat): (s: string)
    ensures |s| > 0 && forall i :: 0 <= i < |s| ==> IsDigit(s[i])
  {
    if n < 10 then ["0123456789"[n]] else Decimal(n / 10) + ["0123456789"[n % 10]]
  }

  /** The number that digits spell. */
  function Value(s: string): nat
    decreases |s|
  {
    if s == "" then 0
    else
      var last := s[|s| - 1];
      10 * Value(s[..|s| - 1]) + if IsDigit(last) then last as int - '0' as int else 0
  }

  lemma DigitSpells(d: nat)
    requires d < 10
    ensures var c := "0123456789"[d]; IsDigit(c) && c as int - '0' as int == d
  {
  }

  lemma ValueSnoc(s: string, c: char)
    requires IsDigit(c)
    ensures Value(s + [c]) == 10 * Value(s) + (c as int - '0' as int)
  {
    assert (s + [c])[..|s|] == s;
  }

  lemma {:induction false} ValueOfDecimal(n: nat)
    ensures Value(Decimal(n)) == n
    decreases n
  {
    DigitSpells(n % 10);
    if n >= 10 {
      ValueOfDecimal(n / 10);
      ValueSnoc(Decimal(n / 10), "0123456789"[n % 10]);
    } else {
      ValueSnoc("", "0123456789"[n]);
      assert "" + ["0123456789"[n]] == Decimal(n);
    }
  }
}
