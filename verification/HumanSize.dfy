/** The unit that a size is printed in. */
module HumanSize {
  import opened Chunking

  /** A size as it is printed: plain bytes, or a quotient with a binary unit.  The decimal
      rendering of the quotient is left to the printer. */
  datatype Human = Plain(bytes: nat) | Scaled(size: nat, div: nat, unit: char)

  const UNITS := "KMGTPE"

  function Power(n: nat): (p: nat)
    ensures p > 0
  {
    if n == 0 then 1 else 1024 * Power(n - 1)
  }

  /** `size` lies between the unit of exponent `e` and the next one. */
  predicate InUnit(size: nat, e: nat) {
    Power(e + 1) <= size < Power(e + 2)
  }

  lemma {:induction false} PowerMonotone(m: nat, n: nat)
    requires m <= n
    ensures Power(m) <= Power(n)
  {
    if m < n { PowerMonotone(m, n - 1); }
  }

  /** A size belongs to one unit only. */
  lemma UnitUnique(size: nat, e: nat, e': nat)
    requires InUnit(size, e) && InUnit(size, e')
    ensures e == e'
  {
    if e + 2 <= e' + 1 { PowerMonotone(e + 2, e' + 1); }
    if e' + 2 <= e + 1 { PowerMonotone(e' + 2, e + 1); }
  }

  lemma SeventhUnit()
    ensures Power(7) >= TWO_64
  {
    assert Power(7) == 1024 * Power(6) == 1024 * 1024 * Power(5) == 1024 * 1024 * 1024 * Power(4);
    assert Power(4) == 1024 * Power(3) == 1024 * 1024 * Power(2) == 1024 * 1024 * 1024 * 1024;
  }

  /** The largest 64-bit size is still below the seventh unit. */
  lemma SixUnits(size: nat, e: nat)
    requires size < TWO_64 && Power(e + 1) <= size
    ensures e <= 5
  {
    SeventhUnit();
    if e > 5 { PowerMonotone(7, e + 1); }
  }

  /** Dividing twice is dividing by the product. */
  lemma DivideTwice(size: nat, a: nat, b: nat)
    requires a > 0 && b > 0
    ensures a * b > 0 && (size / a) / b == size / (a * b)
  {
    var q, r := size / a, size % a;
    var q', r' := q / b, q % b;
    assert q * a == q' * (a * b) + r' * a;
    assert r' * a <= (b - 1) * a by { MulMonotone(r', b - 1, a); }
    assert (b - 1) * a == a * b - a;
    assert (q' + 1) * (a * b) == q' * (a * b) + a * b;
    QuotientIs(size, a * b, q');
  }

  lemma Powers()
    ensures Power(1) == 1024 && Power(2) == 1048576 && Power(3) == 1073741824
    ensures Power(4) == 1099511627776 && Power(5) == 1125899906842624 && Power(6) == 1152921504606846976
  {
    assert Power(1) == 1024 * Power(0);
    assert Power(3) == 1024 * Power(2);
    assert Power(5) == 1024 * Power(4);
  }

  /** Which unit a size is in, by its exponent. */
  lemma UnitOf(size: nat, e: nat)
    requires e < |UNITS| && InUnit(size, e)
    ensures Scaled(size, Power(e + 1), UNITS[e]) ==
      if size < 1048576 then Scaled(size, 1024, 'K')
      else if size < 1073741824 then Scaled(size, 1048576, 'M')
      else if size < 1099511627776 then Scaled(size, 1073741824, 'G')
      else if size < 1125899906842624 then Scaled(size, 1099511627776, 'T')
      else if size < 1152921504606846976 then Scaled(size, 1125899906842624, 'P')
      else Scaled(size, 1152921504606846976, 'E')
  {
    Powers();
    PowerMonotone(e + 1, 6);
  }

  /** The scaling loop.  Every multiplication stays in uint64 and the unit index in bounds. */
  method HumanSize(size: nat) returns (h: Human)
    requires size < TWO_64
    ensures size < 1024 ==> h == Plain(size)
    ensures size >= 1024 ==>
      exists e: nat :: e < |UNITS| && InUnit(size, e) && h == Scaled(size, Power(e + 1), UNITS[e])
    ensures 1024 <= size < 1048576 ==> h == Scaled(size, 1024, 'K')
    ensures 1048576 <= size < 1073741824 ==> h == Scaled(size, 1048576, 'M')
    ensures 1073741824 <= size < 1099511627776 ==> h == Scaled(size, 1073741824, 'G')
    ensures 1099511627776 <= size < 1125899906842624 ==> h == Scaled(size, 1099511627776, 'T')
    ensures 1125899906842624 <= size < 1152921504606846976 ==> h == Scaled(size, 1125899906842624, 'P')
    ensures 1152921504606846976 <= size ==> h == Scaled(size, 1152921504606846976, 'E')
  {
    if size < 1024 { return Plain(size); }
    var div, exp := 1024, 0;
    var n := size / 1024;
    assert Power(1) == 1024 * Power(0);
    while n >= 1024
      invariant div == Power(exp + 1) <= size && n == size / div
      decreases n
    {
      DivideTwice(size, div, 1024);
      QuotientAtLeast(size, div, 1024);
      div := U64(div * 1024);
      exp := exp + 1;
      n := n / 1024;
    }
    SixUnits(size, exp);
    QuotientBelow(size, div, 1024);
    assert InUnit(size, exp);
    UnitOf(size, exp);
    h := Scaled(size, div, UNITS[exp]);
  }

  lemma QuotientAtLeast(size: nat, d: nat, k: nat)
    requires d > 0 && size / d >= k
    ensures d * k <= size
  {
    MulMonotone(k, size / d, d);
  }

  lemma QuotientBelow(size: nat, d: nat, k: nat)
    requires d > 0 && size / d < k
    ensures size < d * k
  {
    MulMonotone(size / d + 1, k, d);
    assert (size / d + 1) * d == size / d * d + d;
  }
}
