/** Decimal numerals: strconv.Itoa and the digit parsers the type grammars use. */
module Numerals {
  import opened Common

  function DigitChar(d: int): (c: char)
    requires 0 <= d < 10
    ensures '0' <= c <= '9'
  {
    ('0' as int + d) as char
  }

  predicate IsDigit(c: char) { '0' <= c <= '9' }

  function DigitValue(c: char): (d: int)
    requires IsDigit(c)
    ensures 0 <= d < 10
  {
    c as int - '0' as int
  }

  function Natural(n: nat): (s: string)
    ensures s != [] && forall i :: 0 <= i < |s| ==> IsDigit(s[i])
  {
    if n < 10 then [DigitChar(n)] else Natural(n / 10) + [DigitChar(n % 10)]
  }

  function Itoa(n: int): string
  {
    if n < 0 then "-" + Natural(-n) else Natural(n)
  }

  /** The value of a digit string, most significant digit first. */
  function ParseNatural(s: string): nat
    requires forall i :: 0 <= i < |s| ==> IsDigit(s[i])
  {
    if s == [] then 0 else 10 * ParseNatural(s[..|s| - 1]) + DigitValue(Last(s))
  }

  lemma {:induction false} ParsePrinted(n: nat)
    ensures ParseNatural(Natural(n)) == n
  {
    var s := Natural(n);
    if n < 10 {
      assert s[..0] == [];
    } else {
      assert s[..|s| - 1] == Natural(n / 10);
      ParsePrinted(n / 10);
    }
  }
}
