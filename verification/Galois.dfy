/**
 The fields behind the Bech32 checksum (src/bech32.cpp): GF(32) as the source represents it, and
 GF(1024) above it, in which the generator of the code has its roots.
 */
module Galois {
  import Arith
  import opened Bits

  // ------------------------------------------------------------------------ GF(32)

  // Polynomials over GF(2) modulo a^5 + a^3 + 1.
  function Twice(a: bv5): bv5 {
    if a & 16 != 0 then (a << 1) ^ 9 else a << 1
  }

  function Part(b: bv5, bit: bv5, a: bv5): bv5 {
    if b & bit != 0 then a else 0
  }

  function Sum5(p: bv5, q: bv5, r: bv5, s: bv5, t: bv5): bv5 {
    Add(Add(Add(Add(p, q), r), s), t)
  }

  function Mul5(a: bv5, b: bv5): bv5 {
    Sum5(Part(b, 1, a), Part(b, 2, Twice(a)), Part(b, 4, Twice(Twice(a))),
         Part(b, 8, Twice(Twice(Twice(a)))), Part(b, 16, Twice(Twice(Twice(Twice(a))))))
  }

  lemma AddZero(a: bv5)
    ensures Add(a, 0) == a && Add(0, a) == a && Add(a, a) == 0
  {
  }

  lemma AddCommutes(a: bv5, b: bv5)
    ensures Add(a, b) == Add(b, a)
  {
  }

  // Equal terms only sum to zero.
  lemma AddEqual(a: bv5, b: bv5)
    requires Add(a, b) == 0
    ensures a == b
  {
  }

  lemma Regroup(p: bv5, q: bv5, r: bv5, s: bv5, t: bv5, u: bv5, v: bv5, w: bv5, x: bv5, y: bv5)
    ensures Sum5(Add(p, u), Add(q, v), Add(r, w), Add(s, x), Add(t, y)) == Add(Sum5(p, q, r, s, t), Sum5(u, v, w, x, y))
  {
  }

  lemma Mul5Units(a: bv5)
    ensures Mul5(a, 1) == a && Mul5(1, a) == a && Mul5(a, 0) == 0 && Mul5(0, a) == 0
  {
  }

  lemma Mul5Commutes(a: bv5, b: bv5)
    ensures Mul5(a, b) == Mul5(b, a)
  {
  }

  lemma PartLinear(b: bv5, c: bv5, bit: bv5, a: bv5)
    requires bit in {1, 2, 4, 8, 16}
    ensures Part(Add(b, c), bit, a) == Add(Part(b, bit, a), Part(c, bit, a))
  {
    if bit == 1 {
    } else if bit == 2 {
    } else if bit == 4 {
    } else if bit == 8 {
    } else {
      assert bit == 16;
    }
  }

  lemma Mul5Distributes(a: bv5, b: bv5, c: bv5)
    ensures Mul5(a, Add(b, c)) == Add(Mul5(a, b), Mul5(a, c))
  {
    hide Add, Part, Twice, Sum5;
    var a1, a2, a3, a4 := Twice(a), Twice(Twice(a)), Twice(Twice(Twice(a))), Twice(Twice(Twice(Twice(a))));
    PartLinear(b, c, 1, a);
    PartLinear(b, c, 2, a1);
    PartLinear(b, c, 4, a2);
    PartLinear(b, c, 8, a3);
    PartLinear(b, c, 16, a4);
    Regroup(Part(b, 1, a), Part(b, 2, a1), Part(b, 4, a2), Part(b, 8, a3), Part(b, 16, a4),
            Part(c, 1, a), Part(c, 2, a1), Part(c, 4, a2), Part(c, 8, a3), Part(c, 16, a4));
  }

  lemma Mul5DistributesLeft(a: bv5, b: bv5, c: bv5)
    ensures Mul5(Add(a, b), c) == Add(Mul5(a, c), Mul5(b, c))
  {
    hide Add, Mul5;
    Mul5Distributes(c, a, b);
    Mul5Commutes(c, a);
    Mul5Commutes(c, b);
    Mul5Commutes(c, Add(a, b));
  }

  lemma Mul5Twice(a: bv5, b: bv5)
    ensures Mul5(a, Twice(b)) == Twice(Mul5(a, b))
  {
  }

  lemma Mul5Part(a: bv5, c: bv5, bit: bv5, x: bv5)
    ensures Mul5(a, Part(c, bit, x)) == Part(c, bit, Mul5(a, x))
  {
    Mul5Units(a);
    hide Mul5;
  }

  lemma Mul5OfSum(a: bv5, p: bv5, q: bv5, r: bv5, s: bv5, t: bv5)
    ensures Mul5(a, Sum5(p, q, r, s, t)) == Sum5(Mul5(a, p), Mul5(a, q), Mul5(a, r), Mul5(a, s), Mul5(a, t))
  {
    hide Mul5, Add;
    Mul5Distributes(a, p, q);
    Mul5Distributes(a, Add(p, q), r);
    Mul5Distributes(a, Add(Add(p, q), r), s);
    Mul5Distributes(a, Add(Add(Add(p, q), r), s), t);
  }

  lemma Mul5Associates(a: bv5, b: bv5, c: bv5)
    ensures Mul5(Mul5(a, b), c) == Mul5(a, Mul5(b, c))
  {
    var b1, b2, b3, b4 := Twice(b), Twice(Twice(b)), Twice(Twice(Twice(b))), Twice(Twice(Twice(Twice(b))));
    hide Part, Twice, Sum5;
    var ab := Mul5(a, b);
    assert Mul5(ab, c) == Sum5(Part(c, 1, ab), Part(c, 2, Twice(ab)), Part(c, 4, Twice(Twice(ab))),
                               Part(c, 8, Twice(Twice(Twice(ab)))), Part(c, 16, Twice(Twice(Twice(Twice(ab))))));
    assert Mul5(b, c) == Sum5(Part(c, 1, b), Part(c, 2, b1), Part(c, 4, b2), Part(c, 8, b3), Part(c, 16, b4));
    hide Mul5;
    Mul5OfSum(a, Part(c, 1, b), Part(c, 2, b1), Part(c, 4, b2), Part(c, 8, b3), Part(c, 16, b4));
    Mul5Twice(a, b);
    Mul5Twice(a, b1);
    Mul5Twice(a, b2);
    Mul5Twice(a, b3);
    Mul5Part(a, c, 1, b);
    Mul5Part(a, c, 2, b1);
    Mul5Part(a, c, 4, b2);
    Mul5Part(a, c, 8, b3);
    Mul5Part(a, c, 16, b4);
  }

  lemma Mul5NoZeroDivisors(a: bv5, b: bv5)
    requires Mul5(a, b) == 0 && a != 0
    ensures b == 0
  {
  }

  // ---------------------------------------------------------------------- GF(1024)

  // re + im * b, with b^2 = b + 1.
  datatype Elem = Elem(re: bv5, im: bv5)

  const ZERO := Elem(0, 0)
  const ONE := Elem(1, 0)

  function Plus(z: Elem, w: Elem): Elem {
    Elem(Add(z.re, w.re), Add(z.im, w.im))
  }

  function Times(z: Elem, w: Elem): Elem {
    Elem(Add(Mul5(z.re, w.re), Mul5(z.im, w.im)),
         Add(Add(Mul5(z.re, w.im), Mul5(z.im, w.re)), Mul5(z.im, w.im)))
  }

  lemma PlusLaws(z: Elem, w: Elem, x: Elem)
    ensures Plus(z, w) == Plus(w, z) && Plus(Plus(z, w), x) == Plus(z, Plus(w, x))
    ensures Plus(z, ZERO) == z && Plus(ZERO, z) == z && Plus(z, z) == ZERO
  {
  }

  lemma PlusEqual(z: Elem, w: Elem)
    requires Plus(z, w) == ZERO
    ensures z == w
  {
    AddEqual(z.re, w.re);
    AddEqual(z.im, w.im);
  }

  lemma TimesUnits(z: Elem)
    ensures Times(ONE, z) == z && Times(z, ONE) == z && Times(ZERO, z) == ZERO && Times(z, ZERO) == ZERO
  {
    hide Mul5;
    Mul5Units(z.re);
    Mul5Units(z.im);
  }

  lemma TimesCommutes(z: Elem, w: Elem)
    ensures Times(z, w) == Times(w, z)
  {
    hide Mul5, Add;
    Mul5Commutes(z.re, w.re);
    Mul5Commutes(z.im, w.im);
    Mul5Commutes(z.re, w.im);
    Mul5Commutes(z.im, w.re);
    AddCommutes(Mul5(z.re, w.im), Mul5(z.im, w.re));
  }

  lemma Swap4(p: bv5, q: bv5, r: bv5, s: bv5)
    ensures Add(Add(p, q), Add(r, s)) == Add(Add(p, r), Add(q, s))
  {
  }

  lemma Swap6(p: bv5, q: bv5, r: bv5, s: bv5, t: bv5, u: bv5)
    ensures Add(Add(Add(p, q), Add(r, s)), Add(t, u)) == Add(Add(Add(p, r), t), Add(Add(q, s), u))
  {
  }

  lemma TimesDistributes(z: Elem, w: Elem, x: Elem)
    ensures Times(z, Plus(w, x)) == Plus(Times(z, w), Times(z, x))
  {
    hide Mul5, Add;
    var a, b, c, d, e, f := z.re, z.im, w.re, w.im, x.re, x.im;
    Mul5Distributes(a, c, e);
    Mul5Distributes(b, d, f);
    Mul5Distributes(a, d, f);
    Mul5Distributes(b, c, e);
    Swap4(Mul5(a, c), Mul5(a, e), Mul5(b, d), Mul5(b, f));
    Swap6(Mul5(a, d), Mul5(a, f), Mul5(b, c), Mul5(b, e), Mul5(b, d), Mul5(b, f));
  }

  lemma TimesDistributesLeft(z: Elem, w: Elem, x: Elem)
    ensures Times(Plus(z, w), x) == Plus(Times(z, x), Times(w, x))
  {
    hide Times, Plus;
    TimesDistributes(x, z, w);
    TimesCommutes(x, z);
    TimesCommutes(x, w);
    TimesCommutes(x, Plus(z, w));
  }

  lemma Mix5(p: bv5, q: bv5, r: bv5, s: bv5, t: bv5)
    ensures Add(Add(p, q), Add(Add(r, s), t)) == Add(Add(p, r), Add(Add(s, q), t))
  {
  }

  lemma Mix8(p: bv5, q: bv5, r: bv5, s: bv5, t: bv5, u: bv5, v: bv5)
    ensures Add(Add(Add(p, q), Add(Add(r, s), t)), Add(Add(u, v), q))
         == Add(Add(Add(Add(p, r), u), Add(s, q)), Add(Add(v, t), q))
  {
  }

  // (p + q) x and ((p + q) + r) x.
  lemma Expand2(p: bv5, q: bv5, x: bv5)
    ensures Mul5(Add(p, q), x) == Add(Mul5(p, x), Mul5(q, x)) && Mul5(x, Add(p, q)) == Add(Mul5(x, p), Mul5(x, q))
  {
    Mul5DistributesLeft(p, q, x);
    Mul5Distributes(x, p, q);
  }

  lemma Expand3(p: bv5, q: bv5, r: bv5, x: bv5)
    ensures Mul5(Add(Add(p, q), r), x) == Add(Add(Mul5(p, x), Mul5(q, x)), Mul5(r, x))
    ensures Mul5(x, Add(Add(p, q), r)) == Add(Add(Mul5(x, p), Mul5(x, q)), Mul5(x, r))
  {
    hide Mul5, Add;
    Expand2(p, q, x);
    Expand2(Add(p, q), r, x);
  }

  lemma TimesAssociatesRe(z: Elem, w: Elem, x: Elem)
    ensures Times(Times(z, w), x).re == Times(z, Times(w, x)).re
  {
    hide Mul5, Add;
    var a, b, c, d, e, f := z.re, z.im, w.re, w.im, x.re, x.im;
    Expand2(Mul5(a, c), Mul5(b, d), e);
    Expand3(Mul5(a, d), Mul5(b, c), Mul5(b, d), f);
    Expand2(Mul5(c, e), Mul5(d, f), a);
    Expand3(Mul5(c, f), Mul5(d, e), Mul5(d, f), b);
    Mul5Associates(a, c, e);
    Mul5Associates(b, d, e);
    Mul5Associates(a, d, f);
    Mul5Associates(b, c, f);
    Mul5Associates(b, d, f);
    Mix5(Mul5(a, Mul5(c, e)), Mul5(b, Mul5(d, e)), Mul5(a, Mul5(d, f)), Mul5(b, Mul5(c, f)), Mul5(b, Mul5(d, f)));
  }

  lemma TimesAssociatesIm(z: Elem, w: Elem, x: Elem)
    ensures Times(Times(z, w), x).im == Times(z, Times(w, x)).im
  {
    hide Mul5, Add;
    var a, b, c, d, e, f := z.re, z.im, w.re, w.im, x.re, x.im;
    Expand2(Mul5(a, c), Mul5(b, d), f);
    Expand3(Mul5(a, d), Mul5(b, c), Mul5(b, d), e);
    Expand3(Mul5(a, d), Mul5(b, c), Mul5(b, d), f);
    Expand3(Mul5(c, f), Mul5(d, e), Mul5(d, f), a);
    Expand2(Mul5(c, e), Mul5(d, f), b);
    Expand3(Mul5(c, f), Mul5(d, e), Mul5(d, f), b);
    Mul5Associates(a, c, f);
    Mul5Associates(b, d, f);
    Mul5Associates(a, d, e);
    Mul5Associates(b, c, e);
    Mul5Associates(b, d, e);
    Mul5Associates(a, d, f);
    Mul5Associates(b, c, f);
    Mix8(Mul5(a, Mul5(c, f)), Mul5(b, Mul5(d, f)), Mul5(a, Mul5(d, e)), Mul5(b, Mul5(c, e)), Mul5(b, Mul5(d, e)),
         Mul5(a, Mul5(d, f)), Mul5(b, Mul5(c, f)));
  }

  lemma TimesAssociates(z: Elem, w: Elem, x: Elem)
    ensures Times(Times(z, w), x) == Times(z, Times(w, x))
  {
    hide Times;
    TimesAssociatesRe(z, w, x);
    TimesAssociatesIm(z, w, x);
  }

  // The product with the conjugate.
  function Norm(z: Elem): bv5 {
    Add(Add(Mul5(z.re, z.re), Mul5(z.re, z.im)), Mul5(z.im, z.im))
  }

  lemma NormIsNotZero(z: Elem)
    requires z != ZERO
    ensures Norm(z) != 0
  {
  }

  lemma TimesConjugate(z: Elem)
    ensures Times(Elem(Add(z.re, z.im), z.im), z) == Elem(Norm(z), 0)
  {
    hide Mul5, Add;
    var a, b := z.re, z.im;
    Expand2(a, b, a);
    Expand2(a, b, b);
    Mul5Commutes(a, b);
    Cancel4(Mul5(a, b), Mul5(b, b));
  }

  lemma Cancel4(p: bv5, q: bv5)
    ensures Add(Add(Add(p, q), p), q) == 0
  {
  }

  lemma NoZeroDivisors(z: Elem, w: Elem)
    requires Times(z, w) == ZERO && z != ZERO
    ensures w == ZERO
  {
    NormIsNotZero(z);
    TimesConjugate(z);
    var conj := Elem(Add(z.re, z.im), z.im);
    TimesAssociates(conj, z, w);
    TimesUnits(conj);
    ScalarTimes(Norm(z), w);
    hide Times, Norm;
    Mul5NoZeroDivisors(Norm(z), w.re);
    Mul5NoZeroDivisors(Norm(z), w.im);
  }

  lemma ScalarTimes(k: bv5, w: Elem)
    ensures Times(Elem(k, 0), w) == Elem(Mul5(k, w.re), Mul5(k, w.im))
  {
    hide Mul5;
    Mul5Units(w.re);
    Mul5Units(w.im);
  }

  // ------------------------------------------------------------------------ powers

  function Pow(z: Elem, n: nat): Elem {
    if n == 0 then ONE else Times(z, Pow(z, n - 1))
  }

  lemma {:induction false} PowAdd(z: Elem, m: nat, n: nat)
    ensures Pow(z, m + n) == Times(Pow(z, m), Pow(z, n))
    decreases m
  {
    hide Times;
    if m == 0 {
      TimesUnits(Pow(z, n));
    } else {
      PowAdd(z, m - 1, n);
      TimesAssociates(z, Pow(z, m - 1), Pow(z, n));
    }
  }

  lemma {:induction false} PowOfProduct(z: Elem, w: Elem, n: nat)
    ensures Pow(Times(z, w), n) == Times(Pow(z, n), Pow(w, n))
  {
    hide Times;
    if n == 0 {
      TimesUnits(ONE);
    } else {
      PowOfProduct(z, w, n - 1);
      TimesFour(z, w, Pow(z, n - 1), Pow(w, n - 1));
    }
  }

  lemma TimesFour(z: Elem, w: Elem, x: Elem, y: Elem)
    ensures Times(Times(z, w), Times(x, y)) == Times(Times(z, x), Times(w, y))
  {
    hide Times;
    TimesAssociates(z, w, Times(x, y));
    TimesAssociates(w, x, y);
    TimesCommutes(w, x);
    TimesAssociates(x, w, y);
    TimesAssociates(z, x, Times(w, y));
  }

  // If a power is one, so are those for multiples of the exponent.
  lemma {:induction false} PowOfMultiple(z: Elem, m: nat, q: nat)
    requires Pow(z, m) == ONE
    ensures Pow(z, m * q) == ONE
    decreases q
  {
    hide Times;
    if q > 0 {
      PowOfMultiple(z, m, q - 1);
      assert m * q == m + m * (q - 1);
      PowAdd(z, m, m * (q - 1));
      TimesUnits(ONE);
    }
  }

  lemma {:induction false} PowNotZero(z: Elem, n: nat)
    requires z != ZERO
    ensures Pow(z, n) != ZERO
  {
    hide Times;
    if n > 0 {
      PowNotZero(z, n - 1);
      if Pow(z, n) == ZERO {
        NoZeroDivisors(z, Pow(z, n - 1));
      }
    }
  }

  // --------------------------------------------------------------------- the order

  // The quotient of consecutive roots of the generator.
  const ALPHA := Elem(1, 6)

  lemma PowDouble(z: Elem, n: nat, w: Elem)
    requires Pow(z, n) == w
    ensures Pow(z, 2 * n) == Times(w, w)
  {
    hide Times;
    PowAdd(z, n, n);
  }

  lemma AlphaSquares()
    ensures Pow(ALPHA, 1) == Elem(1, 6) && Pow(ALPHA, 2) == Elem(21, 20) && Pow(ALPHA, 4) == Elem(1, 10)
    ensures Pow(ALPHA, 8) == Elem(23, 22) && Pow(ALPHA, 16) == Elem(1, 14) && Pow(ALPHA, 32) == Elem(7, 6)
    ensures Pow(ALPHA, 64) == Elem(1, 20) && Pow(ALPHA, 128) == Elem(11, 10) && Pow(ALPHA, 256) == Elem(1, 22)
  {
    TimesUnits(ALPHA);
    assert Pow(ALPHA, 0) == ONE;
    assert Pow(ALPHA, 1) == ALPHA;
    hide Pow;
    PowDouble(ALPHA, 1, Elem(1, 6));
    PowDouble(ALPHA, 2, Elem(21, 20));
    PowDouble(ALPHA, 4, Elem(1, 10));
    PowDouble(ALPHA, 8, Elem(23, 22));
    PowDouble(ALPHA, 16, Elem(1, 14));
    PowDouble(ALPHA, 32, Elem(7, 6));
    PowDouble(ALPHA, 64, Elem(1, 20));
    PowDouble(ALPHA, 128, Elem(11, 10));
  }

  // Powers of alpha that are not one, and one that is.
  lemma AlphaPowers()
    ensures Pow(ALPHA, 33) != ONE && Pow(ALPHA, 93) != ONE && Pow(ALPHA, 341) != ONE && Pow(ALPHA, 1023) == ONE
  {
    AlphaSquares();
    hide Pow;
    PowAdd(ALPHA, 32, 1);
    PowAdd(ALPHA, 64, 16);
    PowAdd(ALPHA, 80, 8);
    PowAdd(ALPHA, 88, 4);
    PowAdd(ALPHA, 92, 1);
    PowAdd(ALPHA, 256, 64);
    PowAdd(ALPHA, 320, 16);
    PowAdd(ALPHA, 336, 4);
    PowAdd(ALPHA, 340, 1);
    PowAdd(ALPHA, 341, 341);
    PowAdd(ALPHA, 682, 341);
  }

  lemma FactorOf(p: nat, x: nat, y: nat)
    requires p > 0 && x * y == 1023
    ensures x % p == 0 ==> 1023 % p == 0
  {
    if x % p == 0 {
      var q := x / p;
      Arith.DivMod(x, p);
      assert (q * p) * y == (q * y) * p;
      Arith.ModIs(0, q * y, p);
    }
  }

  // The divisors of 1023 below 32.
  lemma SmallFactor(x: nat, y: nat)
    requires x * y == 1023 && x <= 31
    ensures x == 1 || x == 3 || x == 11 || x == 31
  {
    FactorOf(2, x, y);
    FactorOf(5, x, y);
    FactorOf(7, x, y);
    FactorOf(9, x, y);
    FactorOf(13, x, y);
    FactorOf(17, x, y);
    FactorOf(19, x, y);
    FactorOf(23, x, y);
    FactorOf(29, x, y);
  }

  lemma OneIsSmall(x: nat, y: nat)
    requires x * y == 1023
    ensures x <= 31 || y <= 31
  {
    if x >= 32 && y >= 32 {
      Arith.MulMonotone(32, x, 32, y);
    }
  }

  // A proper divisor of 1023 divides 341, 93 or 33.
  lemma ProperDivisor(k: nat, q: nat) returns (c: nat)
    requires k * q == 1023 && 0 < k < 1023
    ensures k * c == 341 || k * c == 93 || k * c == 33
  {
    OneIsSmall(k, q);
    if q <= 31 {
      SmallFactor(q, k);
      c := 1;
    } else {
      SmallFactor(k, q);
      c := if k == 1 then 341 else if k == 3 then 11 else if k == 11 then 31 else 3;
    }
  }

  // alpha has order 1023.
  lemma {:induction false} AlphaOrder(k: nat)
    requires 0 < k < 1023
    ensures Pow(ALPHA, k) != ONE
    decreases k
  {
    hide Pow, Times;
    AlphaPowers();
    if Pow(ALPHA, k) == ONE {
      var q, r := 1023 / k, 1023 % k;
      PowOfMultiple(ALPHA, k, q);
      PowAdd(ALPHA, k * q, r);
      TimesUnits(Pow(ALPHA, r));
      if r > 0 {
        AlphaOrder(r);
      } else {
        var c := ProperDivisor(k, q);
        PowOfMultiple(ALPHA, k, c);
      }
    }
  }

  // Different powers are different.
  lemma AlphaDistinct(a: nat, b: nat)
    requires b < a < b + 1023
    ensures Pow(ALPHA, a) != Pow(ALPHA, b)
  {
    hide Pow, Times;
    if Pow(ALPHA, a) == Pow(ALPHA, b) {
      var u, w := Pow(ALPHA, a - b), Pow(ALPHA, b);
      AlphaOrder(a - b);
      PowAdd(ALPHA, a - b, b);
      TimesUnits(w);
      TimesDistributesLeft(u, ONE, w);
      PlusLaws(w, w, w);
      PowNotZero(ALPHA, b);
      TimesCommutes(Plus(u, ONE), w);
      NoZeroDivisors(w, Plus(u, ONE));
      PlusEqual(u, ONE);
    }
  }

  // Three terms that sum to zero with the weights 1, u and u^2 are all zero.
  lemma Vandermonde(x: Elem, y: Elem, e: Elem, u: Elem, v: Elem)
    requires u != ONE && v != ONE && u != v
    requires Plus(Plus(x, y), e) == ZERO
    requires Plus(Plus(Times(x, u), Times(y, v)), e) == ZERO
    requires Plus(Plus(Times(Times(x, u), u), Times(Times(y, v), v)), e) == ZERO
    ensures x == ZERO && y == ZERO && e == ZERO
  {
    hide Times, Plus;
    // x (1 + u) = y (1 + v) and x u (1 + u) = y v (1 + v)
    var p, q := Times(x, Plus(ONE, u)), Times(y, Plus(ONE, v));
    Difference(x, y, e, u, v);
    Difference(Times(x, u), Times(y, v), e, u, v);
    SwapFactors(x, u);
    SwapFactors(y, v);
    // hence p u = p v
    TimesDistributes(p, u, v);
    PlusLaws(Times(p, u), Times(p, v), ZERO);
    PlusLaws(Times(p, v), Times(p, v), ZERO);
    if p != ZERO {
      NoZeroDivisors(p, Plus(u, v));
      PlusEqual(u, v);
    }
    TermIsZero(x, u);
    TermIsZero(y, v);
    PlusLaws(ZERO, ZERO, e);
    PlusLaws(e, e, e);
  }

  lemma TermIsZero(x: Elem, u: Elem)
    requires Times(x, Plus(ONE, u)) == ZERO && u != ONE
    ensures x == ZERO
  {
    hide Times, Plus;
    if x != ZERO {
      NoZeroDivisors(x, Plus(ONE, u));
      PlusEqual(ONE, u);
    }
  }

  lemma SwapFactors(x: Elem, u: Elem)
    ensures Times(Times(x, u), Plus(ONE, u)) == Times(Times(x, Plus(ONE, u)), u)
  {
    hide Times, Plus;
    TimesAssociates(x, u, Plus(ONE, u));
    TimesCommutes(u, Plus(ONE, u));
    TimesAssociates(x, Plus(ONE, u), u);
  }

  // The sum of two of the equations.
  lemma Difference(x: Elem, y: Elem, e: Elem, u: Elem, v: Elem)
    requires Plus(Plus(x, y), e) == ZERO && Plus(Plus(Times(x, u), Times(y, v)), e) == ZERO
    ensures Times(x, Plus(ONE, u)) == Times(y, Plus(ONE, v))
  {
    TimesDistributes(x, ONE, u);
    TimesDistributes(y, ONE, v);
    TimesUnits(x);
    TimesUnits(y);
    hide Times;
    SumsAgree(x, y, e, Times(x, u), Times(y, v));
  }

  lemma SumsAgree(x: Elem, y: Elem, e: Elem, z: Elem, w: Elem)
    requires Plus(Plus(x, y), e) == ZERO && Plus(Plus(z, w), e) == ZERO
    ensures Plus(x, z) == Plus(y, w)
  {
    SumsAgree5(x.re, y.re, e.re, z.re, w.re);
    SumsAgree5(x.im, y.im, e.im, z.im, w.im);
  }

  lemma SumsAgree5(x: bv5, y: bv5, e: bv5, z: bv5, w: bv5)
    requires Add(Add(x, y), e) == 0 && Add(Add(z, w), e) == 0
    ensures Add(x, z) == Add(y, w)
  {
  }

  // --------------------------------------------------------------------- the roots

  // k(z), by Horner's rule from the coefficient 29 of x^5 down to the constant 18.
  function KAt(z: Elem): Elem {
    Plus(Elem(18, 0), Times(z, Plus(Elem(29, 0), Times(z, Plus(Elem(21, 0), Times(z, Plus(Elem(20, 0),
      Times(z, Plus(Elem(22, 0), Times(z, Elem(29, 0)))))))))))
  }

  function Sixth(z: Elem): Elem {
    Times(Times(Times(z, z), z), Times(Times(z, z), z))
  }

  const ROOT0 := Elem(12, 24)
  const ROOT1 := Elem(14, 27)
  const ROOT2 := Elem(6, 30)

  lemma RootAt0()
    ensures KAt(ROOT0) == Sixth(ROOT0)
  {
    assert Times(ROOT0, Elem(29, 0)) == Elem(17, 11);
    assert Times(ROOT0, Elem(7, 11)) == Elem(19, 11);
    assert Times(ROOT0, Elem(6, 11)) == Elem(31, 19);
    assert Times(ROOT0, Elem(2, 19)) == Elem(14, 4);
    assert Times(ROOT0, ROOT0) == Elem(10, 8);
    assert Times(Elem(10, 8), ROOT0) == Elem(28, 2);
    assert Times(Elem(28, 2), Elem(28, 2)) == Elem(28, 4);
    hide Times;
  }

  lemma RootAt1()
    ensures KAt(ROOT1) == Sixth(ROOT1)
  {
    assert Times(ROOT1, Elem(29, 0)) == Elem(2, 5);
    assert Times(ROOT1, Elem(20, 5)) == Elem(11, 10);
    assert Times(ROOT1, Elem(31, 10)) == Elem(6, 21);
    assert Times(ROOT1, Elem(19, 21)) == Elem(6, 1);
    assert Times(ROOT1, Elem(27, 1)) == Elem(20, 24);
    assert Times(ROOT1, ROOT1) == Elem(11, 13);
    assert Times(Elem(11, 13), ROOT1) == Elem(18, 28);
    assert Times(Elem(18, 28), Elem(18, 28)) == Elem(6, 24);
    hide Times;
  }

  lemma RootAt2()
    ensures KAt(ROOT2) == Sixth(ROOT2)
  {
    assert Times(ROOT2, Elem(29, 0)) == Elem(28, 23);
    assert Times(ROOT2, Elem(10, 23)) == Elem(17, 30);
    assert Times(ROOT2, Elem(5, 30)) == Elem(2, 23);
    assert Times(ROOT2, Elem(23, 23)) == Elem(13, 9);
    assert Times(ROOT2, Elem(16, 9)) == Elem(3, 11);
    assert Times(ROOT2, ROOT2) == Elem(8, 28);
    assert Times(Elem(8, 28), ROOT2) == Elem(16, 21);
    assert Times(Elem(16, 21), Elem(16, 21)) == Elem(17, 11);
    hide Times;
  }

  // Their quotients.
  lemma RootQuotients()
    ensures ROOT1 == Times(ROOT0, ALPHA) && ROOT2 == Times(ROOT1, ALPHA)
  {
  }
}
