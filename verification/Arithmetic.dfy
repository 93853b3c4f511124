// Order and distribution of products and quotients, for the proofs whose arithmetic is not linear.
module Arithmetic {
  function Clamp01(x: real): real {
    if x < 0.0 then 0.0 else if x > 1.0 then 1.0 else x
  }

  lemma ProductOrder(a: int, b: int, n: int)
    requires n > 0
    ensures a * n < b * n <==> a < b
    ensures a * n <= b * n <==> a <= b
  {
  }

  lemma Distribute(x: int, d: int, n: int)
    ensures (x + d) * n == x * n + d * n
  {
  }

  lemma DistributeReal(x: real, y: real, z: real)
    ensures (x + y) * z == x * z + y * z
  {
  }

  lemma QuotientOrder(x: real, y: real, d: real)
    requires d > 0.0 && x <= y
    ensures x / d <= y / d
    ensures x >= 0.0 ==> x / d >= 0.0
  {
  }

  lemma FloorOrder(a: real, b: real)
    requires a <= b
    ensures a.Floor <= b.Floor
  {
  }

  lemma ModuloUnique(x: nat, p: nat, q: nat, r: nat)
    requires p > 0 && x == q * p + r && r < p
    ensures x % p == r
  {
    var q', r' := x / p, x % p;
    assert x == q' * p + r' && r' < p;
    Distribute(q, 1, p);
    Distribute(q', 1, p);
    ProductOrder(q, q' + 1, p);
    ProductOrder(q', q + 1, p);
  }

  lemma MultipleModulo(q: int, n: int)
    requires n > 0
    ensures (q * n) % n == 0
  {
    var d, r := q * n / n, q * n % n;
    assert q * n == d * n + r && 0 <= r < n;
    Distribute(d, 1, n);
    ProductOrder(q, d + 1, n);
    ProductOrder(d, q, n);
  }
}
