/** Multiplication and division facts the solver needs spelled out. */
module Arith {

  lemma MulGrows(a: nat, b: nat)
    requires a >= 1 && b >= 1
    ensures a * b >= b && a * b >= 1
  {
  }

  lemma MulMonotone(a: nat, b: nat, c: nat)
    requires a <= b
    ensures a * c <= b * c
    ensures a < b ==> a * c + c <= b * c
  {
    assert b * c == a * c + (b - a) * c;
    if a < b {
      MulMonotone0(b - a, c);
    }
  }

  lemma MulMonotone0(n: nat, c: nat)
    requires n >= 1
    ensures n * c >= c
  {
  }

  lemma DivOfMultiple(q: nat, d: nat, r: nat)
    requires d > 0 && r < d
    ensures (q * d + r) / d == q && (q * d + r) % d == r
  {
    var x := q * d + r;
    var q', r' := x / d, x % d;
    assert x == d * q' + r' && 0 <= r' < d && 0 <= q';
    assert d * q' == q' * d;
    if q' < q {
      MulMonotone(q', q, d);
    } else if q' > q {
      MulMonotone(q, q', d);
    }
  }

  lemma QuotientOf(a: nat, n: nat)
    requires n > 0
    ensures 0 <= a / n && a == a / n * n + a % n
  {
  }

  lemma MulAssoc(a: nat, b: nat, c: nat)
    ensures a * (b * c) == (a * b) * c
  {
  }

  lemma MulDistributes(a: nat, b: nat, c: nat)
    ensures (a + b) * c == a * c + b * c
  {
  }

  /** The number with digit i in front of a remainder below s. */
  lemma DigitOf(k: nat, l: nat, s: nat, i: nat, r: nat)
    requires 0 < s && i < l && r < s
    ensures k * (l * s) + i * s == (k * l + i) * s
    ensures ((k * (l * s) + i * s + r) / s) % l == i
  {
    MulAssoc(k, l, s);
    MulDistributes(k * l, i, s);
    DivOfMultiple(k * l + i, s, r);
    DivOfMultiple(k, l, i);
  }

  lemma MultipleOf(x: nat, d: nat) returns (k: nat)
    requires d > 0 && x % d == 0
    ensures x == k * d
  {
    k := x / d;
  }
}
