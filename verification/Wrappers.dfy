/** The conventional optional value, in place of a null pointer. */
module Wrappers {
  datatype Option<+T> = None | Some(value: T)
}

module Division {
  lemma Monotone(d: nat, a: nat, b: nat)
    ensures a <= b ==> d * a <= d * b
  {
  }

  lemma QuotientIs(n: nat, d: nat, q: nat, r: nat)
    requires r < d && n == d * q + r
    ensures n / d == q
  {
    var z := n / d;
    assert n == d * z + n % d;
    Monotone(d, z + 1, q);
    Monotone(d, q + 1, z);
  }

  lemma DivideTwice(n: nat, a: nat, b: nat)
    requires a > 0 && b > 0
    ensures a * b > 0 && n / a / b == n / (a * b)
  {
    var m := n / a;
    var q, r := m / b, m % b;
    QuotientRemainder(m, b);
    Regroup(n, a, b, q, r);
    Carry(a, b, r, n % a);
    QuotientIs(n, a * b, q, a * r + n % a);
  }

  lemma QuotientRemainder(m: nat, b: nat)
    requires b > 0
    ensures m == b * (m / b) + m % b && m % b < b
  {
  }

  lemma Carry(a: nat, b: nat, r: nat, x: nat)
    requires r < b && x < a
    ensures a * r + x < a * b
  {
    Monotone(a, r + 1, b);
    assert a * (r + 1) == a * r + a;
  }

  lemma Regroup(n: nat, a: nat, b: nat, q: nat, r: nat)
    requires a > 0 && n / a == b * q + r
    ensures n == (a * b) * q + (a * r + n % a)
  {
    assert n == a * (n / a) + n % a;
    assert a * (b * q + r) == (a * b) * q + a * r;
  }
}
