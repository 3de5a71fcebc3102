/**
 Little-endian numbers of 32-bit limbs and the bit operations on them, as numbers.
 */
module Limbs {
  import opened Arith

  const BASE: nat := 0x1_0000_0000

  // The weight of limb i.
  function Weight(i: nat): (w: nat)
    ensures w > 0
  {
    Pow2(32 * i)
  }

  lemma WeightNext(i: nat)
    ensures Weight(i + 1) == Weight(i) * BASE && Weight(0) == 1
  {
    Pow2Table();
    Pow2Add(32 * i, 32);
  }

  lemma WeightAdd(i: nat, j: nat)
    ensures Weight(i + j) == Weight(i) * Weight(j)
  {
    Pow2Add(32 * i, 32 * j);
  }

  // ---------------------------------------------------------------------- values

  predicate Ok(s: seq<nat>) {
    forall i | 0 <= i < |s| :: s[i] < BASE
  }

  function Value(s: seq<nat>): nat {
    if s == [] then 0 else Value(s[..|s| - 1]) + s[|s| - 1] * Weight(|s| - 1)
  }

  lemma ValueSnoc(s: seq<nat>, i: nat)
    requires i < |s|
    ensures Value(s[..i + 1]) == Value(s[..i]) + s[i] * Weight(i)
  {
    assert s[..i + 1][..i] == s[..i];
  }

  lemma {:induction false} ValueBound(s: seq<nat>)
    requires Ok(s)
    ensures Value(s) < Weight(|s|)
  {
    if s != [] {
      var m := |s| - 1;
      ValueBound(s[..m]);
      WeightNext(m);
      MulMonotone(s[m] + 1, BASE, Weight(m), Weight(m));
      assert (s[m] + 1) * Weight(m) == s[m] * Weight(m) + Weight(m);
    }
  }

  lemma {:induction false} ValueUpdate(s: seq<nat>, i: nat, x: nat)
    requires i < |s|
    ensures Value(s[i := x]) + s[i] * Weight(i) == Value(s) + x * Weight(i)
  {
    var m := |s| - 1;
    var t := s[i := x];
    if i == m {
      assert t[..m] == s[..m];
    } else {
      assert t[..m] == s[..m][i := x];
      ValueUpdate(s[..m], i, x);
    }
  }

  lemma {:induction false} ValueZeros(s: seq<nat>)
    requires forall i | 0 <= i < |s| :: s[i] == 0
    ensures Value(s) == 0
  {
    if s != [] {
      ValueZeros(s[..|s| - 1]);
    }
  }

  lemma SplitStep(v: nat, w: nat, y: nat, x: nat, u: nat)
    ensures (v + w * y) + x * (w * u) == v + w * (y + x * u)
  {
    assert x * (w * u) == w * (x * u);
    Distribute(y, x * u, w);
  }

  // The value splits at a limb.
  lemma {:induction false} ValueSplit(s: seq<nat>, k: nat)
    requires k <= |s|
    ensures Value(s) == Value(s[..k]) + Weight(k) * Value(s[k..])
  {
    hide Weight;
    if k == |s| {
      assert s[..k] == s && s[k..] == [];
    } else {
      var m := |s| - 1;
      ValueSplit(s[..m], k);
      assert s[..m][..k] == s[..k] && s[..m][k..] == s[k..][..m - k];
      WeightAdd(k, m - k);
      SplitStep(Value(s[..k]), Weight(k), Value(s[k..][..m - k]), s[m], Weight(m - k));
    }
  }

  // A larger limb below equal ones decides.
  lemma ValueLess(s: seq<nat>, t: seq<nat>, i: nat)
    requires |s| == |t| && i < |s| && Ok(s) && Ok(t)
    requires s[i + 1..] == t[i + 1..] && s[i] < t[i]
    ensures Value(s) < Value(t)
  {
    hide Weight, Value;
    ValueSplit(s, i + 1);
    ValueSplit(t, i + 1);
    ValueSnoc(s, i);
    ValueSnoc(t, i);
    ValueBound(s[..i]);
    MulMonotone(s[i] + 1, t[i], Weight(i), Weight(i));
    Distribute(s[i], 1, Weight(i));
  }

  // ------------------------------------------------------------------------ bits

  // Bitwise or of two numbers.
  function Or(a: nat, b: nat): nat
    decreases a + b
  {
    if a == 0 then b
    else if b == 0 then a
    else (if a % 2 == 1 || b % 2 == 1 then 1 else 0) + 2 * Or(a / 2, b / 2)
  }

  // Without common bits it is the sum.
  lemma {:induction false} OrIsSum(a: nat, b: nat, k: nat)
    requires b < Pow2(k) && a % Pow2(k) == 0
    ensures Or(a, b) == a + b
    decreases k
  {
    if k > 0 && a != 0 && b != 0 {
      HalfMultiple(a, k);
      OrIsSum(a / 2, b / 2, k - 1);
    }
  }

  lemma HalfMultiple(a: nat, k: nat)
    requires k > 0 && a % Pow2(k) == 0
    ensures a % 2 == 0 && (a / 2) % Pow2(k - 1) == 0
  {
    var p := Pow2(k - 1);
    DivMod(a, Pow2(k));
    var q := a / Pow2(k);
    assert a == 2 * (q * p);
    ModIs(0, q, p);
    assert a / 2 == q * p;
  }

  lemma {:induction false} OrCommutes(a: nat, b: nat)
    ensures Or(a, b) == Or(b, a)
    decreases a + b
  {
    if a != 0 && b != 0 {
      OrCommutes(a / 2, b / 2);
    }
  }

  // Bit k of x.
  predicate TestBit(x: nat, k: nat) {
    (x / Pow2(k)) % 2 == 1
  }

  // Or-ing in a bit that is clear adds it.
  lemma {:induction false} OrClearBit(a: nat, k: nat)
    requires !TestBit(a, k)
    ensures Or(a, Pow2(k)) == a + Pow2(k)
  {
    if k > 0 && a != 0 {
      DivTwice(a, 2, Pow2(k - 1));
      OrClearBit(a / 2, k - 1);
    }
  }
}
