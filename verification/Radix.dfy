/**
 Numerals in any base, most significant digit first.
 */
module Radix {
  import opened Arith

  function Pow(b: nat, n: nat): (p: nat)
    ensures b > 0 ==> p > 0
    ensures n == 0 ==> p == 1
  {
    if n == 0 then 1 else Pow(b, n - 1) * b
  }

  lemma {:induction false} PowAdd(b: nat, m: nat, n: nat)
    ensures Pow(b, m + n) == Pow(b, m) * Pow(b, n)
  {
    if n > 0 {
      PowAdd(b, m, n - 1);
      MulAssociates(Pow(b, m), Pow(b, n - 1), b);
    }
  }

  lemma {:induction false} PowGrows(b: nat, m: nat, n: nat)
    requires b > 0 && m <= n
    ensures Pow(b, m) <= Pow(b, n)
  {
    if m < n {
      PowGrows(b, m, n - 1);
      MulMonotone(Pow(b, n - 1), Pow(b, n - 1), 1, b);
    }
  }

  // (b^m)^q == b^(m * q)
  lemma {:induction false} PowMul(b: nat, m: nat, q: nat)
    ensures Pow(Pow(b, m), q) == Pow(b, m * q)
  {
    if q > 0 {
      PowMul(b, m, q - 1);
      PowAdd(b, m * (q - 1), m);
      assert m * (q - 1) + m == m * q;
    }
  }

  lemma {:induction false} PowOfSmaller(a: nat, b: nat, q: nat)
    requires a <= b
    ensures Pow(a, q) <= Pow(b, q)
  {
    if q > 0 {
      PowOfSmaller(a, b, q - 1);
      MulMonotone(Pow(a, q - 1), Pow(b, q - 1), a, b);
    }
  }

  // ------------------------------------------------------------------- numerals

  predicate DigitsOk(b: nat, d: seq<nat>) {
    forall i | 0 <= i < |d| :: d[i] < b
  }

  function Val(b: nat, d: seq<nat>): nat {
    if d == [] then 0 else Val(b, d[..|d| - 1]) * b + d[|d| - 1]
  }

  lemma ValSnoc(b: nat, d: seq<nat>, x: nat)
    ensures Val(b, d + [x]) == Val(b, d) * b + x
  {
    assert (d + [x])[..|d|] == d;
  }

  lemma {:induction false} ValAppend(b: nat, x: seq<nat>, y: seq<nat>)
    ensures Val(b, x + y) == Val(b, x) * Pow(b, |y|) + Val(b, y)
  {
    if y == [] {
      assert x + y == x;
    } else {
      var z, l := y[..|y| - 1], y[|y| - 1];
      ValAppend(b, x, z);
      assert x + y == (x + z) + [l];
      ValSnoc(b, x + z, l);
      Distribute(Val(b, x) * Pow(b, |z|), Val(b, z), b);
      MulAssociates(Val(b, x), Pow(b, |z|), b);
    }
  }

  lemma {:induction false} ValBound(b: nat, d: seq<nat>)
    requires b > 0 && DigitsOk(b, d)
    ensures Val(b, d) < Pow(b, |d|)
  {
    if d != [] {
      var m := |d| - 1;
      ValBound(b, d[..m]);
      MulMonotone(Val(b, d[..m]) + 1, Pow(b, m), b, b);
      Distribute(Val(b, d[..m]), 1, b);
    }
  }

  lemma {:induction false} ValZeros(b: nat, d: seq<nat>)
    requires forall i | 0 <= i < |d| :: d[i] == 0
    ensures Val(b, d) == 0
  {
    if d != [] {
      ValZeros(b, d[..|d| - 1]);
    }
  }

  // Leading zeroes do not count.
  lemma ValSkip(b: nat, d: seq<nat>, k: nat)
    requires k <= |d| && forall i | 0 <= i < k :: d[i] == 0
    ensures Val(b, d) == Val(b, d[k..])
  {
    ValZeros(b, d[..k]);
    ValAppend(b, d[..k], d[k..]);
    assert d == d[..k] + d[k..];
  }

  // The numeral without leading zeroes.
  function Numeral(b: nat, n: nat): (d: seq<nat>)
    requires b >= 2
    ensures DigitsOk(b, d)
    ensures n == 0 <==> d == []
    ensures d != [] ==> d[0] != 0
    ensures Val(b, d) == n
    decreases n
  {
    if n == 0 then []
    else
      DivSmaller(n, b);
      var q := Numeral(b, n / b);
      ValSnoc(b, q, n % b);
      q + [n % b]
  }

  lemma DivSmaller(n: nat, b: nat)
    requires b >= 2 && n > 0
    ensures 0 <= n / b < n && (n / b) * b + n % b == n && n % b < b
  {
    var q, r := n / b, n % b;
    assert n == b * q + r;
    MulMonotone(q, q, 2, b);
  }

  lemma DivUnique(q: nat, r: nat, b: nat)
    requires r < b
    ensures (q * b + r) / b == q && (q * b + r) % b == r
  {
    ModIs(r, q, b);
  }

  // Numerals are unique.
  lemma {:induction false} NumeralOfVal(b: nat, d: seq<nat>)
    requires b >= 2 && DigitsOk(b, d) && (d != [] ==> d[0] != 0)
    ensures Numeral(b, Val(b, d)) == d
  {
    if d != [] {
      var m := |d| - 1;
      NumeralOfVal(b, d[..m]);
      var q := Val(b, d[..m]);
      if m > 0 {
        PositiveTimes(q, b);
      }
      hide Numeral;
      NumeralSnoc(b, q, d[m]);
      assert d == d[..m] + [d[m]];
    }
  }

  lemma NumeralSnoc(b: nat, q: nat, r: nat)
    requires b >= 2 && r < b && q * b + r > 0
    ensures Numeral(b, q * b + r) == Numeral(b, q) + [r]
  {
    DivUnique(q, r, b);
  }

  lemma PositiveTimes(x: nat, b: nat)
    requires x > 0 && b > 0
    ensures x * b > 0
  {
  }
}
