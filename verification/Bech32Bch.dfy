/**
 The Bech32 checksum detects up to three errors within a window of 1023 symbols
 (src/bech32.cpp). The generator has three roots in GF(1024) whose quotients are one and the
 same element of order 1023; a remainder is zero only if the message vanishes at all three.
 */
module Bech32Bch {
  import opened Bits
  import opened Bech32
  import opened G = Galois

  // ------------------------------------------------------------------ coefficients

  function Coefs(c: bv32): (s: seq<bv5>)
    ensures |s| == 6
  {
    [Coef(c, 0), Coef(c, 1), Coef(c, 2), Coef(c, 3), Coef(c, 4), Coef(c, 5)]
  }

  // k(x) = x^6 mod g(x), from the constant coefficient up.
  const K: seq<bv5> := [18, 29, 21, 20, 22, 29]

  lemma CoefOfShifted(c: bv32, j: nat)
    requires j < 6
    ensures Coef(Shifted(c), j) == if j == 0 then 0 else Coef(c, j - 1)
  {
  }

  lemma CoefOfWidened(v: bv8, j: nat)
    requires j < 6 && v < 32
    ensures Coef(Widened(v), j) == if j == 0 then v as bv5 else 0
  {
  }

  // The five constants of the source are the multiples of k(x).
  lemma GenIsMultiple(c0: bv5, j: nat)
    requires j < 6
    ensures Coef(Gen(c0 as bv32), j) == Mul5(K[j], c0)
  {
  }

  lemma TopCoef(c: bv32)
    requires c < 0x4000_0000
    ensures Coef(c, 5) as bv32 == c >> 25
  {
  }

  // A constant as an element of the larger field.
  function Scalar(k: bv5): Elem { Elem(k, 0) }

  function Symbol(v: bv8): bv5
    requires v < 32
  {
    v as bv5
  }

  // The coefficients after a step: the old ones moved up, and k(x) times the one that left.
  lemma CoefOfStep(c: bv32, v: bv8, j: nat)
    requires c < 0x4000_0000 && v < 32 && j < 6
    ensures Coef(Step(c, v), j)
         == Add(if j == 0 then Symbol(v) else Coef(c, j - 1), Mul5(K[j], Coef(c, 5)))
  {
    hide Coef, Bits.Plus, Shifted, Widened, Gen, Add, Mul5;
    CoefOfShifted(c, j);
    CoefOfWidened(v, j);
    TopCoef(c);
    GenIsMultiple(Coef(c, 5), j);
    CoefOfPlus(Shifted(c), Widened(v), j);
    CoefOfPlus(Bits.Plus(Shifted(c), Widened(v)), Gen(c >> 25), j);
    AddZero(Symbol(v));
    if j > 0 {
      AddZero(Coef(c, j - 1));
    }
  }

  // -------------------------------------------------------------------- evaluation

  // The value of a polynomial, given from the constant coefficient up.
  function Eval(z: Elem, p: seq<bv5>): Elem {
    if p == [] then ZERO else G.Plus(Scalar(p[0]), G.Times(z, Eval(z, p[1..])))
  }

  function SumOf(p: seq<bv5>, q: seq<bv5>): (r: seq<bv5>)
    requires |p| == |q|
    ensures |r| == |p| && forall i | 0 <= i < |p| :: r[i] == Add(p[i], q[i])
  {
    seq(|p|, i requires 0 <= i < |p| => Add(p[i], q[i]))
  }

  function ScaledBy(k: bv5, p: seq<bv5>): (r: seq<bv5>)
    ensures |r| == |p| && forall i | 0 <= i < |p| :: r[i] == Mul5(p[i], k)
  {
    seq(|p|, i requires 0 <= i < |p| => Mul5(p[i], k))
  }

  lemma SumOfFour(p: Elem, q: Elem, r: Elem, s: Elem)
    ensures G.Plus(G.Plus(p, q), G.Plus(r, s)) == G.Plus(G.Plus(p, r), G.Plus(q, s))
  {
    hide Add;
    Swap4(p.re, q.re, r.re, s.re);
    Swap4(p.im, q.im, r.im, s.im);
  }

  lemma {:induction false} EvalOfSum(z: Elem, p: seq<bv5>, q: seq<bv5>)
    requires |p| == |q|
    ensures Eval(z, SumOf(p, q)) == G.Plus(Eval(z, p), Eval(z, q))
  {
    if p == [] {
      PlusLaws(ZERO, ZERO, ZERO);
    } else {
      assert SumOf(p, q)[1..] == SumOf(p[1..], q[1..]);
      assert Scalar(Add(p[0], q[0])) == G.Plus(Scalar(p[0]), Scalar(q[0])) by {
        AddZero(0);
      }
      hide G.Plus, G.Times, Add, Scalar;
      EvalOfSum(z, p[1..], q[1..]);
      var s, t := Eval(z, p[1..]), Eval(z, q[1..]);
      TimesDistributes(z, s, t);
      SumOfFour(Scalar(p[0]), Scalar(q[0]), G.Times(z, s), G.Times(z, t));
    }
  }

  lemma ScalarsMultiply(j: bv5, k: bv5)
    ensures Scalar(Mul5(j, k)) == G.Times(Scalar(k), Scalar(j))
  {
    hide Mul5;
    ScalarTimes(k, Scalar(j));
    Mul5Commutes(j, k);
    Mul5Units(k);
  }

  lemma {:induction false} EvalOfScaled(z: Elem, k: bv5, p: seq<bv5>)
    ensures Eval(z, ScaledBy(k, p)) == G.Times(Scalar(k), Eval(z, p))
  {
    if p == [] {
      TimesUnits(Scalar(k));
    } else {
      assert ScaledBy(k, p)[1..] == ScaledBy(k, p[1..]);
      hide G.Plus, G.Times, Mul5, Scalar;
      EvalOfScaled(z, k, p[1..]);
      var s, w := Scalar(k), Eval(z, p[1..]);
      ScalarsMultiply(p[0], k);
      TimesDistributes(s, Scalar(p[0]), G.Times(z, w));
      TimesAssociates(s, z, w);
      TimesCommutes(s, z);
      TimesAssociates(z, s, w);
    }
  }

  lemma {:induction false} EvalOfSnoc(z: Elem, p: seq<bv5>, k: bv5)
    ensures Eval(z, p + [k]) == G.Plus(Eval(z, p), G.Times(Scalar(k), G.Pow(z, |p|)))
  {
    if p == [] {
      assert ([k])[1..] == [];
      assert [] + [k] == [k];
      TimesUnits(z);
      TimesUnits(Scalar(k));
      PlusLaws(Scalar(k), ZERO, ZERO);
    } else {
      assert (p + [k])[1..] == p[1..] + [k];
      hide G.Plus, G.Times, Scalar;
      EvalOfSnoc(z, p[1..], k);
      var w, t := Eval(z, p[1..]), G.Times(Scalar(k), G.Pow(z, |p| - 1));
      TimesDistributes(z, w, t);
      PlusLaws(Scalar(p[0]), G.Times(z, w), G.Times(z, t));
      TimesAssociates(z, Scalar(k), G.Pow(z, |p| - 1));
      TimesCommutes(z, Scalar(k));
      TimesAssociates(Scalar(k), z, G.Pow(z, |p| - 1));
    }
  }

  // A root of g(x): x^6 and k(x) have the same value.
  predicate IsRoot(z: Elem) {
    Eval(z, K) == G.Pow(z, 6)
  }

  // The value of a packed remainder.
  function At(z: Elem, c: bv32): Elem { Eval(z, Coefs(c)) }

  // At a root, a step multiplies by the root and adds the symbol.
  lemma StepEval(z: Elem, c: bv32, v: bv8)
    requires IsRoot(z) && c < 0x4000_0000 && v < 32
    ensures At(z, Step(c, v)) == G.Plus(G.Times(z, At(z, c)), Scalar(Symbol(v)))
  {
    hide Step, Coef, Coefs, G.Plus, G.Times, G.Pow, Scalar, Mul5, Add, Symbol, Eval;
    var low, top := Coefs(c)[..5], Coef(c, 5);
    StepCoefs(c, v, low, top);
    assert Coefs(c) == low + [top] by {
      LastCoef(c);
    }
    EvalOfSum(z, [Symbol(v)] + low, ScaledBy(top, K));
    EvalOfScaled(z, top, K);
    EvalOfSnoc(z, low, top);
    EvalOfCons(z, Symbol(v), low);
    var e, s := Eval(z, low), Scalar(top);
    LastTerm(z, e, s);
    var x, y := G.Times(z, e), G.Times(s, G.Pow(z, 6));
    PlusLaws(Scalar(Symbol(v)), x, y);
    PlusLaws(Scalar(Symbol(v)), G.Plus(x, y), y);
  }

  lemma LastCoef(c: bv32)
    ensures Coefs(c)[5] == Coef(c, 5)
  {
    hide Coef;
  }

  lemma EvalOfCons(z: Elem, k: bv5, p: seq<bv5>)
    ensures Eval(z, [k] + p) == G.Plus(Scalar(k), G.Times(z, Eval(z, p)))
  {
    assert ([k] + p)[1..] == p;
    hide G.Plus, G.Times, Scalar;
  }

  lemma StepCoefs(c: bv32, v: bv8, low: seq<bv5>, top: bv5)
    requires c < 0x4000_0000 && v < 32 && low == Coefs(c)[..5] && top == Coef(c, 5)
    ensures Coefs(Step(c, v)) == SumOf([Symbol(v)] + low, ScaledBy(top, K))
  {
    hide Step, Coef, Mul5, Add, Symbol;
    forall j | 0 <= j < 6
      ensures Coefs(Step(c, v))[j] == SumOf([Symbol(v)] + low, ScaledBy(top, K))[j]
    {
      CoefOfStep(c, v, j);
    }
  }

  lemma LastTerm(z: Elem, e: Elem, s: Elem)
    ensures G.Times(z, G.Plus(e, G.Times(s, G.Pow(z, 5)))) == G.Plus(G.Times(z, e), G.Times(s, G.Pow(z, 6)))
  {
    assert G.Pow(z, 6) == G.Times(z, G.Pow(z, 5));
    hide G.Plus, G.Times, G.Pow;
    TimesDistributes(z, e, G.Times(s, G.Pow(z, 5)));
    TimesAssociates(z, s, G.Pow(z, 5));
    TimesCommutes(z, s);
    TimesAssociates(s, z, G.Pow(z, 5));
  }

  // ------------------------------------------------------------------ the message

  // The value of a message read after `w`.
  function Value(z: Elem, w: Elem, d: Data): Elem
    requires Symbols(d)
    decreases |d|
  {
    if d == [] then w else Value(z, G.Plus(G.Times(z, w), Scalar(Symbol(d[0]))), d[1..])
  }

  // The remainder has the value of the message.
  lemma {:induction false} FoldEval(z: Elem, c: bv32, d: Data)
    requires IsRoot(z) && c < 0x4000_0000 && Symbols(d)
    ensures At(z, Fold(c, d)) == Value(z, At(z, c), d)
    decreases |d|
  {
    hide Step, IsRoot, At, G.Plus, G.Times, Scalar, Symbol;
    if d != [] {
      StepBound(c, d[0]);
      StepEval(z, c, d[0]);
      FoldEval(z, Step(c, d[0]), d[1..]);
    }
  }

  lemma NothingIsZero(z: Elem)
    ensures At(z, 0) == ZERO
  {
    assert Coefs(0) == [0, 0, 0, 0, 0, 0] by {
      assert Coef(0, 0) == 0 && Coef(0, 1) == 0 && Coef(0, 2) == 0;
      assert Coef(0, 3) == 0 && Coef(0, 4) == 0 && Coef(0, 5) == 0;
    }
    hide Coefs;
    EvalOfZeros(z, [0, 0, 0, 0, 0, 0]);
  }

  lemma {:induction false} EvalOfZeros(z: Elem, p: seq<bv5>)
    requires forall i | 0 <= i < |p| :: p[i] == 0
    ensures Eval(z, p) == ZERO
  {
    if p != [] {
      EvalOfZeros(z, p[1..]);
      TimesUnits(z);
      PlusLaws(ZERO, ZERO, ZERO);
    }
  }

  lemma {:induction false} ValueOfAppend(z: Elem, w: Elem, d: Data, e: Data)
    requires Symbols(d) && Symbols(e)
    ensures Symbols(d + e) && Value(z, w, d + e) == Value(z, Value(z, w, d), e)
    decreases |d|
  {
    if d == [] {
      assert d + e == e;
    } else {
      hide G.Plus, G.Times, Scalar, Symbol;
      assert (d + e)[1..] == d[1..] + e;
      ValueOfAppend(z, G.Plus(G.Times(z, w), Scalar(Symbol(d[0]))), d[1..], e);
    }
  }

  lemma {:induction false} ValueOfZeros(z: Elem, w: Elem, n: nat)
    ensures Value(z, w, Zeros(n)) == G.Times(G.Pow(z, n), w)
    decreases n
  {
    if n == 0 {
      TimesUnits(w);
    } else {
      assert Zeros(n)[1..] == Zeros(n - 1);
      PlusLaws(G.Times(z, w), ZERO, ZERO);
      assert Scalar(Symbol(Zeros(n)[0])) == ZERO;
      hide G.Plus, G.Times;
      ValueOfZeros(z, G.Times(z, w), n - 1);
      TimesAssociates(G.Pow(z, n - 1), z, w);
      TimesCommutes(z, G.Pow(z, n - 1));
    }
  }

  lemma ValueOfOne(z: Elem, w: Elem, v: bv8)
    requires v < 32
    ensures Value(z, w, [v]) == G.Plus(G.Times(z, w), Scalar(Symbol(v)))
  {
    assert [v][1..] == [];
    hide G.Plus, G.Times, Scalar, Symbol;
  }

  // Three symbols x and y zeroes apart.
  function Three(e1: bv8, x: nat, e2: bv8, y: nat, e3: bv8): Data {
    ([e1] + Zeros(x) + [e2]) + Zeros(y) + [e3]
  }

  // What the message of three symbols is worth, with a and b the distances to the last.
  function ThreeTerms(z: Elem, s1: Elem, a: nat, s2: Elem, b: nat, s3: Elem): Elem {
    G.Plus(G.Plus(G.Times(G.Pow(z, a), s1), G.Times(G.Pow(z, b), s2)), s3)
  }

  lemma ValueOfTwo(z: Elem, e1: bv8, x: nat, e2: bv8)
    requires e1 < 32 && e2 < 32
    ensures Symbols([e1] + Zeros(x) + [e2])
    ensures Value(z, ZERO, [e1] + Zeros(x) + [e2])
         == G.Plus(G.Times(G.Pow(z, x + 1), Scalar(Symbol(e1))), Scalar(Symbol(e2)))
  {
    hide G.Plus, G.Times, Scalar, Symbol, Value;
    var s1 := Scalar(Symbol(e1));
    ValueOfOne(z, ZERO, e1);
    TimesUnits(z);
    PlusLaws(s1, ZERO, ZERO);
    ValueOfAppend(z, ZERO, [e1], Zeros(x));
    ValueOfZeros(z, s1, x);
    ValueOfAppend(z, ZERO, [e1] + Zeros(x), [e2]);
    ValueOfOne(z, G.Times(G.Pow(z, x), s1), e2);
    TimesAssociates(z, G.Pow(z, x), s1);
  }

  lemma ValueOfThree(z: Elem, e1: bv8, x: nat, e2: bv8, y: nat, e3: bv8)
    requires e1 < 32 && e2 < 32 && e3 < 32
    ensures Symbols(Three(e1, x, e2, y, e3))
    ensures Value(z, ZERO, Three(e1, x, e2, y, e3))
         == ThreeTerms(z, Scalar(Symbol(e1)), x + y + 2, Scalar(Symbol(e2)), y + 1, Scalar(Symbol(e3)))
  {
    hide G.Plus, G.Times, Scalar, Symbol, Value;
    var s1, s2 := Scalar(Symbol(e1)), Scalar(Symbol(e2));
    var d := [e1] + Zeros(x) + [e2];
    var w := G.Plus(G.Times(G.Pow(z, x + 1), s1), s2);
    ValueOfTwo(z, e1, x, e2);
    ValueOfAppend(z, ZERO, d, Zeros(y));
    ValueOfZeros(z, w, y);
    ValueOfAppend(z, ZERO, d + Zeros(y), [e3]);
    ValueOfOne(z, G.Times(G.Pow(z, y), w), e3);
    TimesAssociates(z, G.Pow(z, y), w);
    assert G.Pow(z, y + 1) == G.Times(z, G.Pow(z, y));
    TimesDistributes(G.Pow(z, y + 1), G.Times(G.Pow(z, x + 1), s1), s2);
    TimesAssociates(G.Pow(z, y + 1), G.Pow(z, x + 1), s1);
    PowAdd(z, y + 1, x + 1);
  }

  // ---------------------------------------------------------------- three errors

  lemma EvalOfK(z: Elem)
    ensures Eval(z, K) == KAt(z)
  {
    hide G.Plus, G.Times;
    EvalOfCons(z, 18, [29, 21, 20, 22, 29]);
    EvalOfCons(z, 29, [21, 20, 22, 29]);
    EvalOfCons(z, 21, [20, 22, 29]);
    EvalOfCons(z, 20, [22, 29]);
    EvalOfCons(z, 22, [29]);
    EvalOfCons(z, 29, []);
    assert [29] + [] == [29];
    assert [22] + [29] == [22, 29] && [20] + [22, 29] == [20, 22, 29];
    assert [21] + [20, 22, 29] == [21, 20, 22, 29] && [29] + [21, 20, 22, 29] == [29, 21, 20, 22, 29];
    assert [18] + [29, 21, 20, 22, 29] == K;
    TimesUnits(z);
    PlusLaws(Scalar(29), ZERO, ZERO);
  }

  lemma SixthPower(z: Elem)
    ensures G.Pow(z, 6) == Sixth(z)
  {
    hide G.Times;
    PowAdd(z, 3, 3);
    PowAdd(z, 2, 1);
    assert G.Pow(z, 1) == G.Times(z, G.Pow(z, 0)) && G.Pow(z, 2) == G.Times(z, G.Pow(z, 1));
    TimesUnits(z);
  }

  lemma Roots()
    ensures IsRoot(ROOT0) && IsRoot(ROOT1) && IsRoot(ROOT2)
  {
    hide KAt, Sixth, Eval, G.Pow;
    RootAt0();
    RootAt1();
    RootAt2();
    EvalOfK(ROOT0);
    EvalOfK(ROOT1);
    EvalOfK(ROOT2);
    SixthPower(ROOT0);
    SixthPower(ROOT1);
    SixthPower(ROOT2);
  }

  // At the next root the terms get the weights alpha^a and alpha^b.
  lemma NextRoot(z: Elem, s1: Elem, a: nat, s2: Elem, b: nat, s3: Elem)
    ensures ThreeTerms(G.Times(z, ALPHA), s1, a, s2, b, s3)
         == G.Plus(G.Plus(G.Times(G.Times(G.Pow(z, a), s1), G.Pow(ALPHA, a)),
                          G.Times(G.Times(G.Pow(z, b), s2), G.Pow(ALPHA, b))), s3)
  {
    hide G.Plus, G.Times, G.Pow;
    WeightedTerm(z, s1, a);
    WeightedTerm(z, s2, b);
  }

  lemma WeightedTerm(z: Elem, s: Elem, a: nat)
    ensures G.Times(G.Pow(G.Times(z, ALPHA), a), s) == G.Times(G.Times(G.Pow(z, a), s), G.Pow(ALPHA, a))
  {
    hide G.Times, G.Pow;
    var p, u := G.Pow(z, a), G.Pow(ALPHA, a);
    PowOfProduct(z, ALPHA, a);
    TimesAssociates(p, u, s);
    TimesCommutes(u, s);
    TimesAssociates(p, s, u);
  }

  // A message of three terms that vanishes at all three roots is zero.
  lemma ThreeVanish(s1: Elem, a: nat, s2: Elem, b: nat, s3: Elem)
    requires 0 < b < a < 1023
    requires ThreeTerms(ROOT0, s1, a, s2, b, s3) == ZERO
    requires ThreeTerms(ROOT1, s1, a, s2, b, s3) == ZERO
    requires ThreeTerms(ROOT2, s1, a, s2, b, s3) == ZERO
    ensures s1 == ZERO && s2 == ZERO && s3 == ZERO
  {
    hide G.Plus, G.Times, G.Pow;
    RootQuotients();
    NextRoot(ROOT0, s1, a, s2, b, s3);
    NextRoot(ROOT1, s1, a, s2, b, s3);
    var u, v := G.Pow(ALPHA, a), G.Pow(ALPHA, b);
    var x, y := G.Times(G.Pow(ROOT0, a), s1), G.Times(G.Pow(ROOT0, b), s2);
    WeightedTerm(ROOT0, s1, a);
    WeightedTerm(ROOT0, s2, b);
    AlphaOrder(a);
    AlphaOrder(b);
    AlphaDistinct(a, b);
    Vandermonde(x, y, s3, u, v);
    PowNotZero(ROOT0, a);
    PowNotZero(ROOT0, b);
    if s1 != ZERO {
      NoZeroDivisors(G.Pow(ROOT0, a), s1);
    }
    if s2 != ZERO {
      NoZeroDivisors(G.Pow(ROOT0, b), s2);
    }
  }

  // Up to three symbols within a window of 1023, not all zero, leave a remainder.
  lemma ThreeLeaveRemainder(e1: bv8, x: nat, e2: bv8, y: nat, e3: bv8)
    requires e1 < 32 && e2 < 32 && e3 < 32 && x + y + 3 <= 1023
    requires Fold(0, Three(e1, x, e2, y, e3)) == 0
    ensures e1 == 0 && e2 == 0 && e3 == 0
  {
    var d := Three(e1, x, e2, y, e3);
    VanishesAt(ROOT0, e1, x, e2, y, e3);
    VanishesAt(ROOT1, e1, x, e2, y, e3);
    VanishesAt(ROOT2, e1, x, e2, y, e3);
    hide Three, ThreeTerms;
    ThreeVanish(Scalar(Symbol(e1)), x + y + 2, Scalar(Symbol(e2)), y + 1, Scalar(Symbol(e3)));
    SymbolIsZero(e1);
    SymbolIsZero(e2);
    SymbolIsZero(e3);
  }

  lemma SymbolIsZero(e: bv8)
    requires e < 32 && Scalar(Symbol(e)) == ZERO
    ensures e == 0
  {
  }

  lemma VanishesAt(z: Elem, e1: bv8, x: nat, e2: bv8, y: nat, e3: bv8)
    requires z == ROOT0 || z == ROOT1 || z == ROOT2
    requires e1 < 32 && e2 < 32 && e3 < 32 && Fold(0, Three(e1, x, e2, y, e3)) == 0
    ensures ThreeTerms(z, Scalar(Symbol(e1)), x + y + 2, Scalar(Symbol(e2)), y + 1, Scalar(Symbol(e3))) == ZERO
  {
    hide Fold, Three, ThreeTerms, IsRoot, At, Value, Scalar, Symbol;
    Roots();
    ValueOfThree(z, e1, x, e2, y, e3);
    FoldEval(z, 0, Three(e1, x, e2, y, e3));
    NothingIsZero(z);
  }

  lemma ThreeShape(d: Data, p: nat, q: nat, r: nat)
    requires p < q < r < |d|
    requires forall i | 0 <= i < |d| && i != p && i != q && i != r :: d[i] == 0
    ensures d == Zeros(p) + Three(d[p], q - p - 1, d[q], r - q - 1, d[r]) + Zeros(|d| - r - 1)
  {
    var t := Three(d[p], q - p - 1, d[q], r - q - 1, d[r]);
    assert |t| == r - p + 1;
    forall i | 0 <= i < |t|
      ensures t[i] == d[p + i]
    {
    }
    hide Three;
    var e := Zeros(p) + t + Zeros(|d| - r - 1);
    forall i | 0 <= i < |d|
      ensures e[i] == d[i]
    {
      assert p <= i <= r ==> e[i] == t[i - p];
    }
  }

  // Anywhere in a message of any length.
  lemma ThreeFold(d: Data, p: nat, q: nat, r: nat)
    requires Symbols(d) && p < q < r < |d| && r - p < 1023
    requires forall i | 0 <= i < |d| && i != p && i != q && i != r :: d[i] == 0
    requires Fold(0, d) == 0
    ensures d[p] == 0 && d[q] == 0 && d[r] == 0
  {
    hide Fold, Three, Symbol, Scalar, Value;
    var x, y, n := q - p - 1, r - q - 1, |d| - r - 1;
    var t := Three(d[p], x, d[q], y, d[r]);
    ThreeShape(d, p, q, r);
    ValueOfThree(ONE, d[p], x, d[q], y, d[r]);
    FoldZeros(0, p);
    FoldAppend(0, Zeros(p), t);
    FoldAppend(0, Zeros(p) + t, Zeros(n));
    assert t != [] by {
      ThreeIsSome(d[p], x, d[q], y, d[r]);
    }
    FoldBound(0, t);
    FoldZeros(Fold(0, t), n);
    ThreeLeaveRemainder(d[p], x, d[q], y, d[r]);
  }

  lemma ThreeIsSome(e1: bv8, x: nat, e2: bv8, y: nat, e3: bv8)
    ensures Three(e1, x, e2, y, e3) != []
  {
    assert |Three(e1, x, e2, y, e3)| > 0;
  }
}
