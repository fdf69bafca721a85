/** Integer division facts used across the model. */
module Arithmetic {

  lemma MulMonotone(r: nat, a: int, b: int)
    requires a <= b
    ensures r * a <= r * b
  {
    assert r * (b - a) >= 0;
  }

  /** The quotient is the only number that leaves a remainder below the divisor. */
  lemma DivUnique(x: nat, r: nat, k: nat, rem: nat)
    requires rem < r && x == r * k + rem
    ensures x / r == k
  {
    var d := x / r;
    assert x == r * d + x % r;
    if d < k {
      MulMonotone(r, d + 1, k);
    } else if d > k {
      MulMonotone(r, k + 1, d);
    }
  }

  /** The integer quotient rounded up. */
  function CeilDiv(a: nat, b: nat): nat
    requires b > 0
  {
    (a + b - 1) / b
  }

  lemma CeilDivStep(n: nat, r: nat)
    requires 0 < r < n
    ensures CeilDiv(n, r) == 1 + CeilDiv(n - r, r)
  {
    var k, rem := (n - 1) / r, (n - 1) % r;
    assert n - 1 == r * k + rem;
    assert n + r - 1 == r * (k + 1) + rem;
    DivUnique(n + r - 1, r, k + 1, rem);
  }

  lemma CeilDivOne(n: nat, r: nat)
    requires 0 < n <= r
    ensures CeilDiv(n, r) == 1
  {
    DivUnique(n + r - 1, r, 1, n - 1);
  }

  lemma CeilDivMonotone(a: nat, b: nat, r: nat)
    requires a <= b && r > 0
    ensures CeilDiv(a, r) <= CeilDiv(b, r)
  {
    var x, y := a + r - 1, b + r - 1;
    assert x == r * (x / r) + x % r && y == r * (y / r) + y % r;
    if x / r > y / r {
      MulMonotone(r, y / r + 1, x / r);
    }
  }

  lemma CeilDivOfMultiple(n: nat, r: nat)
    requires r > 0 && n % r == 0
    ensures CeilDiv(n + 1, r) == CeilDiv(n, r) + 1
  {
    var k := n / r;
    assert n == r * k + 0;
    assert n + r == r * (k + 1) + 0;
    DivUnique(n + r - 1, r, k, r - 1);
    DivUnique(n + r, r, k + 1, 0);
  }

  lemma CeilDivNextWithin(n: nat, r: nat)
    requires r > 0 && n % r != 0
    ensures CeilDiv(n + 1, r) == CeilDiv(n, r)
  {
    var k := n / r;
    assert n == r * k + n % r;
    assert n + r == r * (k + 1) + n % r;
    assert n + r - 1 == r * (k + 1) + (n % r - 1);
    DivUnique(n + r, r, k + 1, n % r);
    DivUnique(n + r - 1, r, k + 1, n % r - 1);
  }
}
