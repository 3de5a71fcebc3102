/**
 Facts about products, remainders and powers of two.
 */
module Arith {

  function Max(a: int, b: int): int { if a < b then b else a }
  function Min(a: int, b: int): int { if a < b then a else b }

  lemma MulAssociates(x: int, y: int, z: int)
    ensures (x * y) * z == x * (y * z)
  {
  }

  lemma Distribute(x: int, y: int, z: int)
    ensures (x + y) * z == x * z + y * z
  {
  }

  lemma MulMonotone(a: nat, b: nat, c: nat, d: nat)
    requires a <= b && c <= d
    ensures a * c <= b * d
  {
    assert a * c <= a * d;
    assert a * d <= b * d;
  }

  lemma ZeroMultiple(d: int, b: int)
    requires 0 < b && -b < d * b < b
    ensures d == 0
  {
  }

  lemma DivMod(n: nat, m: nat)
    requires m > 0
    ensures n / m >= 0 && n == (n / m) * m + n % m && n % m < m
  {
  }

  lemma ModIs(v: nat, q: nat, m: nat)
    requires v < m
    ensures (v + q * m) % m == v && (v + q * m) / m == q
  {
    var n := v + q * m;
    DivMod(n, m);
    Distribute(n / m, 0 - q, m);
    ZeroMultiple(n / m - q, m);
  }

  lemma DivTwice(v: nat, x: nat, y: nat)
    requires x > 0 && y > 0
    ensures x * y > 0 && v / (x * y) == v / x / y
  {
    DivMod(v, x);
    var q := v / x;
    DivMod(q, y);
    assert v == (v % x + x * (q % y)) + (q / y) * (x * y) by {
      assert q * x == ((q / y) * y + q % y) * x;
      Distribute((q / y) * y, q % y, x);
      assert (q / y) * y * x == (q / y) * (x * y);
    }
    assert v % x + x * (q % y) < x * y by {
      MulMonotone(q % y + 1, y, x, x);
      Distribute(q % y, 1, x);
    }
    ModIs(v % x + x * (q % y), q / y, x * y);
  }

  lemma DivAtLeast(x: nat, p: nat, q: nat)
    requires p > 0
    ensures x / p >= q <==> x >= q * p
  {
    DivMod(x, p);
    if x / p >= q {
      MulMonotone(q, x / p, p, p);
    } else {
      MulMonotone(x / p + 1, q, p, p);
      Distribute(x / p, 1, p);
    }
  }

  lemma RoundDown(x: nat, y: nat, p: nat)
    requires p > 0 && x <= y
    ensures x / p * p <= y / p * p
  {
    DivMod(x, p);
    var q := x / p;
    DivAtLeast(y, p, q);
    MulMonotone(q, y / p, p, p);
  }

  // ------------------------------------------------------------- powers of two

  function Pow2(n: nat): (p: nat)
    ensures p > 0
  {
    if n == 0 then 1 else 2 * Pow2(n - 1)
  }

  lemma {:induction false} Pow2Add(m: nat, n: nat)
    ensures Pow2(m + n) == Pow2(m) * Pow2(n)
  {
    if m > 0 {
      Pow2Add(m - 1, n);
      MulAssociates(2, Pow2(m - 1), Pow2(n));
    }
  }

  lemma {:induction false} Pow2Grows(m: nat, n: nat)
    requires m <= n
    ensures Pow2(m) <= Pow2(n)
    ensures m < n ==> Pow2(m) < Pow2(n)
  {
    if m < n {
      Pow2Grows(m, n - 1);
    }
  }

  lemma Pow2Table()
    ensures Pow2(0) == 1 && Pow2(1) == 2 && Pow2(8) == 0x100 && Pow2(16) == 0x1_0000 && Pow2(24) == 0x100_0000
    ensures Pow2(26) == 0x400_0000 && Pow2(27) == 0x800_0000 && Pow2(31) == 0x8000_0000 && Pow2(32) == 0x1_0000_0000
  {
    assert Pow2(2) == 4 && Pow2(3) == 8 && Pow2(4) == 16;
    Pow2Add(4, 4);
    Pow2Add(8, 8);
    Pow2Add(16, 8);
    Pow2Add(2, 24);
    Pow2Add(3, 24);
    Pow2Add(4, 27);
    Pow2Add(16, 16);
  }
}
