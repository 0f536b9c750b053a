/** Natural numbers: their decimal digits, and products. */
module Arithmetic {
  /** The number in decimal. */
  function Digits(n: nat): (r: string)
    ensures |r| > 0
  {
    if n < 10 then [('0' as int + n) as char] else Digits(n / 10) + [('0' as int + n % 10) as char]
  }

  lemma NotNegative(a: nat, b: nat)
    ensures a * b >= 0
  {
  }

  lemma TimesMonotone(a: nat, b: nat, c: nat)
    requires a <= b
    ensures a * c <= b * c
  {
    var d := b - a;
    assert (a + d) * c == a * c + d * c;
    NotNegative(d, c);
  }

  lemma NextMultiple(a: nat, b: nat)
    ensures (a + 1) * b == a * b + b
  {
  }

  lemma TimesLess(a: nat, b: nat, c: nat)
    requires a < b
    ensures a * c + c <= b * c
  {
    NextMultiple(a, c);
    TimesMonotone(a + 1, b, c);
  }
}
