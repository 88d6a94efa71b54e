/** Decimal text of integers, as it appears in subjects and keys. */
module Decimals {
  import opened Segments

  function Digit(n: nat): char
    requires n < 10
  {
    ('0' as int + n) as char
  }

  function DecimalNat(n: nat): string {
    if n < 10 then [Digit(n)] else DecimalNat(n / 10) + [Digit(n % 10)]
  }

  function Decimal(n: int): string {
    if n < 0 then "-" + DecimalNat(-n) else DecimalNat(n)
  }

  function ParseNat(s: string): int {
    if s == "" then 0 else ParseNat(s[..|s| - 1]) * 10 + (s[|s| - 1] as int - '0' as int)
  }

  lemma {:induction false} ParseDecimal(n: nat)
    ensures ParseNat(DecimalNat(n)) == n && SlashFree(DecimalNat(n))
    ensures DecimalNat(n) != "" && DecimalNat(n)[0] != '-'
  {
    if n < 10 {
      assert ParseNat([Digit(n)]) == ParseNat([Digit(n)][..0]) * 10 + n;
    } else {
      ParseDecimal(n / 10);
      var s := DecimalNat(n);
      assert s[..|s| - 1] == DecimalNat(n / 10);
    }
  }

  lemma DecimalInjective(a: int, b: int)
    requires Decimal(a) == Decimal(b)
    ensures a == b
  {
    ParseDecimal(if a < 0 then -a else a);
    ParseDecimal(if b < 0 then -b else b);
    if a < 0 && b < 0 {
      assert Decimal(a)[1..] == DecimalNat(-a) && Decimal(b)[1..] == DecimalNat(-b);
    }
  }
}
