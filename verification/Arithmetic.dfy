/** Facts about products, quotients and remainders that the solver needs spelled out. */
module Arithmetic {

  /** Euclidean division by a positive base, kept apart from the recursion below. */
  function Quot(v: nat, b: nat): (q: nat)
    requires b > 0
    ensures q == v / b
  {
    v / b
  }

  function Rem(v: nat, b: nat): (r: nat)
    requires b > 0
    ensures r == v % b < b
  {
    v % b
  }

  lemma MulStep(b: nat, d: nat, v: nat, p: nat)
    requires d < b && v < p
    ensures d + b * v < b * p
  {
    assert b * v <= b * (p - 1);
    assert b * (p - 1) == b * p - b;
  }

  lemma Distribute(b: int, v: int, d: int, p: int)
    ensures b * (v + d * p) == b * v + d * (b * p)
  {
  }

  lemma SmallMultiple(b: int, t: int)
    requires -b < b * t < b
    ensures t == 0
  {
  }

  lemma DivModStep(q: int, b: nat, d: nat)
    requires d < b
    ensures (d + b * q) / b == q && (d + b * q) % b == d
  {
    var n := d + b * q;
    var t := n / b - q;
    assert n == b * (n / b) + n % b;
    assert b * t == b * (n / b) - b * q;
    SmallMultiple(b, t);
  }

  lemma AddMultiple(x: nat, b: nat, m: nat)
    requires b > 0
    ensures (x + b * m) / b == x / b + m && (x + b * m) % b == x % b
  {
    var q, r := x / b, x % b;
    assert x == b * q + r;
    assert b * (q + m) == b * q + b * m;
    DivModStep(q + m, b, r);
  }

  lemma NegativeMultiple(b: nat, t: int)
    requires b * t > 0
    ensures t > 0
  {
  }

  lemma DivMod(v: nat, b: nat)
    requires b > 0
    ensures v == b * Quot(v, b) + Rem(v, b)
  {
  }

  lemma DivSmaller(v: nat, b: nat, p: nat)
    requires b > 0 && v < b * p
    ensures v / b < p && v == v % b + b * (v / b)
  {
    assert v == v % b + b * (v / b);
    var t := p - v / b;
    assert b * t == b * p - b * (v / b);
    NegativeMultiple(b, t);
  }

  lemma DivDiv(v: nat, a: nat, b: nat)
    requires a > 0 && b > 0
    ensures a * b > 0 && v / (a * b) == v / a / b
  {
    var q, r, low := v / a / b, v / a % b, v % a;
    assert v == a * (v / a) + low;
    assert v / a == b * q + r;
    MulStep(a, low, r, b);
    assert a * (b * q + r) == (a * b) * q + a * r by {
      Distribute(a, r, q, b);
    }
    DivModStep(q, a * b, low + a * r);
  }

  lemma ScaleMod(x: nat, p: nat, b: nat)
    requires b > 0
    ensures Rem(x * p, b) == Rem((x % b) * p, b)
  {
    var q, y := Quot(x, b), Rem(x, b);
    DivMod(x, b);
    assert x * p == y * p + b * (q * p) by {
      assert x * p == (b * q) * p + y * p;
      assert (b * q) * p == b * (q * p);
    }
    AddMultiple(y * p, b, q * p);
  }

  lemma ModScale(x: nat, d: nat, c: nat, m: nat)
    requires c > 0 && d > 0 && d * c == m
    ensures x * d % m == (x % c) * d
  {
    DivMod(x, c);
    Regroup(x, d, c, Quot(x, c), Rem(x, c));
    MulStep(d, 0, Rem(x, c), c);
    DivModStep(Quot(x, c), m, Rem(x, c) * d);
  }

  lemma ModAdd(x: nat, y: nat, m: nat)
    requires m > 0 && x + y % m < m
    ensures (x + y) % m == x + y % m
  {
    var q, r := y / m, y % m;
    assert y == m * q + r;
    DivModStep(q, m, x + r);
  }

  lemma SmallMod(x: nat, m: nat)
    requires x < m
    ensures x % m == x
  {
  }

  lemma Regroup(x: nat, c: nat, d: nat, q: nat, r: nat)
    requires x == d * q + r
    ensures x * c == (c * d) * q + r * c
  {
    assert x * c == (d * q) * c + r * c;
    assert (d * q) * c == (c * d) * q;
  }
}
