/** The bytes of a number. */
module Numbers {

  /** 256 to the power of `i`. */
  function Place(i: nat): (p: nat)
    ensures p > 0
  {
    if i == 0 then 1 else 0x100 * Place(i - 1)
  }

  /** Byte `i` of a number, counted from the least significant one. */
  function ByteAt(n: nat, i: nat): nat { n / Place(i) % 0x100 }

  lemma Monotone(d: nat, x: nat, y: nat)
    requires x <= y
    ensures d * x <= d * y
  {
  }

  lemma LessFactor(d: nat, x: nat, y: nat)
    requires d * x < d * y
    ensures x < y
  {
    if y <= x { Monotone(d, y, x); }
  }

  lemma Products(a: nat, b: nat, u: nat, v: nat)
    ensures a * (b * u + v) == (a * b) * u + a * v
  {
    assert a * (b * u + v) == a * (b * u) + a * v;
  }

  lemma Quotient(n: nat, d: nat, q: nat, r: nat)
    requires r < d && n == d * q + r
    ensures n / d == q
  {
    var p := n / d;
    assert n == d * p + n % d;
    assert d * (p + 1) == d * p + d && d * (q + 1) == d * q + d;
    LessFactor(d, p, q + 1);
    LessFactor(d, q, p + 1);
  }

  lemma DivideTwice(n: nat, a: nat, b: nat)
    requires a > 0 && b > 0
    ensures a * b > 0 && n / (a * b) == n / a / b
  {
    var q, r := n / a, n % a;
    var u, v := q / b, q % b;
    assert n == a * q + r && q == b * u + v;
    Products(a, b, u, v);
    Monotone(a, v + 1, b);
    assert a * (v + 1) == a * v + a;
    Quotient(n, a * b, u, a * v + r);
  }

  lemma ByteAtNext(n: nat, i: nat)
    ensures ByteAt(n / 0x100, i) == ByteAt(n, i + 1)
  {
    DivideTwice(n, 0x100, Place(i));
  }
}
