/** Decimal numerals, as Ruby's `to_s` writes them and `to_i` reads them. */
module Decimal {

  predicate IsDigit(c: char) { '0' <= c <= '9' }

  predicate AllDigits(s: string) { forall i :: 0 <= i < |s| ==> IsDigit(s[i]) }

  function Write(n: nat): (r: string)
    ensures |r| > 0 && AllDigits(r)
  {
    (if n < 10 then "" else Write(n / 10)) + [('0' as int + n % 10) as char]
  }

  function Read(s: string): nat
    requires AllDigits(s)
  {
    if s == "" then 0 else 10 * Read(s[..|s| - 1]) + (s[|s| - 1] as int - '0' as int)
  }

  lemma {:induction false} ReadWritten(n: nat)
    ensures Read(Write(n)) == n
  {
    var s := Write(n);
    assert s[|s| - 1] as int - '0' as int == n % 10;
    if n >= 10 {
      ReadWritten(n / 10);
      assert s[..|s| - 1] == Write(n / 10);
    } else {
      assert s[..|s| - 1] == "";
    }
  }
}
