/**
 The unsigned integers of src/arith_uint256.h and src/arith_uint256.cpp, for any number of
 limbs: operators that rewrite the limb array in place, specified by the number it holds.
 */
module BaseUint {
  import opened Arith
  import opened Limbs
  import opened LimbShifts

  // The low and the high half of a 64-bit accumulator.
  function Lo(n: nat): (x: nat)
    ensures x < BASE
  {
    n % BASE
  }

  function Hi(n: nat): nat { n / BASE }

  // ---------------------------------------------------------------- number facts

  lemma CarryStep(v: nat, w: nat, carry: nat, n: nat, x: nat)
    requires n == carry + x
    ensures (v + Lo(n) * w) + Hi(n) * (w * BASE) == (v + carry * w) + x * w
  {
    DivMod(n, BASE);
    Distribute(Hi(n) * BASE, Lo(n), w);
    MulAssociates(Hi(n), BASE, w);
    Distribute(carry, x, w);
  }

  // A value with what was carried out of the top.
  lemma Wraps(limbs: seq<nat>, carry: nat, v: nat)
    requires Ok(limbs) && Value(limbs) + carry * Weight(|limbs|) == v
    ensures Value(limbs) == v % Weight(|limbs|)
  {
    ValueBound(limbs);
    ModIs(Value(limbs), carry, Weight(|limbs|));
  }

  lemma WeightTwo()
    ensures Weight(0) == 1 && Weight(1) == BASE && Weight(2) == BASE * BASE
  {
    WeightNext(0);
    WeightNext(1);
  }

  lemma LowTwoLimbs(s: seq<nat>)
    requires Ok(s) && |s| >= 2
    ensures s[0] + s[1] * BASE == Value(s) % (BASE * BASE) && Value(s[..2]) == s[0] + s[1] * BASE
  {
    assert s[..0] == [] && Value(s[..0]) == 0;
    hide Weight, Value;
    WeightTwo();
    ValueSplit(s, 2);
    ValueSnoc(s, 0);
    ValueSnoc(s, 1);
    ValueBound(s[..2]);
    LowPart(Value(s), Value(s[..2]), Value(s[2..]), Weight(2));
  }

  lemma LowPart(v: nat, low: nat, high: nat, w: nat)
    requires v == low + w * high && low < w
    ensures v % w == low
  {
    ModIs(low, high, w);
  }

  lemma TwoLimbs(s: seq<nat>)
    requires Ok(s) && |s| >= 2 && forall i | 2 <= i < |s| :: s[i] == 0
    ensures Value(s) == s[0] + s[1] * BASE
  {
    LowTwoLimbs(s);
    ValueSplit(s, 2);
    ValueZeros(s[2..]);
  }

  lemma HiOfSum(carry: nat, x: nat, y: nat)
    requires carry <= 1 && x < BASE && y < BASE
    ensures Hi(carry + x + y) <= 1
  {
  }

  lemma StoreNext(r: seq<nat>, i: nat, x: nat)
    requires i < |r|
    ensures Value(r[i := x][..i + 1]) == Value(r[..i]) + x * Weight(i)
  {
    ValueSnoc(r[i := x], i);
    assert r[i := x][..i] == r[..i];
  }

  lemma AddNext(a: seq<nat>, b: seq<nat>, r: seq<nat>, i: nat, carry: nat)
    requires i < |a| == |b| == |r|
    requires Value(r[..i]) + carry * Weight(i) == Value(a[..i]) + Value(b[..i])
    ensures
      var n := carry + a[i] + b[i];
      Value(r[i := Lo(n)][..i + 1]) + Hi(n) * Weight(i + 1) == Value(a[..i + 1]) + Value(b[..i + 1])
  {
    hide Weight, Value;
    var n := carry + a[i] + b[i];
    WeightNext(i);
    ValueSnoc(a, i);
    ValueSnoc(b, i);
    StoreNext(r, i, Lo(n));
    CarryStep(Value(r[..i]), Weight(i), carry, n, a[i] + b[i]);
    Distribute(a[i], b[i], Weight(i));
  }

  // The 64-bit accumulator.
  function Accumulated(carry: nat, p: nat, a: nat, b: nat): nat { carry + p + a * b }

  // The first i limbs have been multiplied by m.
  ghost predicate Multiplied(a: seq<nat>, m: nat, r: seq<nat>, i: nat, carry: nat) {
    i <= |a| == |r| && Value(r[..i]) + carry * Weight(i) == Value(a[..i]) * m
  }

  lemma MulNext(a: seq<nat>, m: nat, r: seq<nat>, i: nat, carry: nat)
    requires i < |a| && Multiplied(a, m, r, i, carry)
    ensures
      var n := Accumulated(carry, 0, m, a[i]);
      Multiplied(a, m, r[i := Lo(n)], i + 1, Hi(n))
  {
    hide Weight, Value;
    var n := carry + m * a[i];
    WeightNext(i);
    ValueSnoc(a, i);
    StoreNext(r, i, Lo(n));
    CarryStep(Value(r[..i]), Weight(i), carry, n, m * a[i]);
    Distribute(Value(a[..i]), a[i] * Weight(i), m);
    assert (m * a[i]) * Weight(i) == (a[i] * Weight(i)) * m;
  }

  lemma MulEnd(a: seq<nat>, m: nat, r: seq<nat>, carry: nat)
    requires Ok(r) && Multiplied(a, m, r, |a|, carry)
    ensures Value(r) == (Value(a) * m) % Weight(|a|)
  {
    hide Weight, Value;
    assert r[..|a|] == r && a[..|a|] == a;
    Wraps(r, carry, Value(a) * m);
  }

  lemma {:induction false} ComplementValue(s: seq<nat>, t: seq<nat>)
    requires |s| == |t| && forall i | 0 <= i < |s| :: s[i] + t[i] == BASE - 1
    ensures Value(s) + Value(t) + 1 == Weight(|s|)
  {
    hide Weight;
    if s == [] {
      WeightNext(0);
    } else {
      var m := |s| - 1;
      ComplementValue(s[..m], t[..m]);
      WeightNext(m);
      Distribute(s[m], t[m], Weight(m));
      Distribute(BASE - 1, 1, Weight(m));
    }
  }

  // Adding one to a limb: it either grows by one or wraps and carries.
  lemma IncrementLimb(s: seq<nat>, i: nat)
    requires i < |s| && s[i] < BASE
    ensures
      var t := s[i := Lo(s[i] + 1)];
      Value(t) + (if t[i] == 0 then Weight(i + 1) else 0) == Value(s) + Weight(i)
  {
    hide Weight, Value;
    var y := Lo(s[i] + 1);
    ValueUpdate(s, i, y);
    WeightNext(i);
    if s[i] + 1 < BASE {
      Distribute(s[i], 1, Weight(i));
    } else {
      assert Weight(i) + (BASE - 1) * Weight(i) == Weight(i) * BASE;
    }
  }

  lemma DecrementLimb(s: seq<nat>, i: nat)
    requires i < |s| && s[i] < BASE
    ensures
      var t := s[i := Lo(s[i] + BASE - 1)];
      Value(t) + Weight(i) == Value(s) + (if t[i] == BASE - 1 then Weight(i + 1) else 0)
  {
    hide Weight, Value;
    var y := Lo(s[i] + BASE - 1);
    ValueUpdate(s, i, y);
    WeightNext(i);
    if s[i] == 0 {
      assert Weight(i) + (BASE - 1) * Weight(i) == Weight(i) * BASE;
    } else {
      Distribute(y, 1, Weight(i));
    }
  }

  // One row of the schoolbook product: a digit times part of b is added at limb j.
  lemma RowNext(p: seq<nat>, r: seq<nat>, a: nat, b: seq<nat>, i: nat, j: nat, carry: nat)
    requires |p| == |r| == |b| && i + j < |r|
    requires Value(r) + carry * Weight(i + j) == Value(p) + a * Value(b[..i]) * Weight(j)
    ensures
      var n := Accumulated(carry, r[i + j], a, b[i]);
      Value(r[i + j := Lo(n)]) + Hi(n) * Weight(i + 1 + j) == Value(p) + a * Value(b[..i + 1]) * Weight(j)
  {
    hide Weight, Value;
    var k := i + j;
    var n := carry + r[k] + a * b[i];
    ValueUpdate(r, k, Lo(n));
    WeightNext(k);
    WeightAdd(i, j);
    ValueSnoc(b, i);
    CarryStep(0, Weight(k), carry + r[k], n, a * b[i]);
    Distribute(carry, r[k], Weight(k));
    RowSum(a, Value(b[..i]), b[i], Weight(i), Weight(j));
  }

  lemma RowSum(a: nat, v: nat, x: nat, wi: nat, wj: nat)
    ensures a * (v + x * wi) * wj == a * v * wj + (a * x) * (wi * wj)
  {
    Distribute(v, x * wi, a);
    Distribute(v * a, x * wi * a, wj);
    assert x * wi * a * wj == (a * x) * (wi * wj);
  }

  // A finished row: what it leaves out is a multiple of the modulus.
  lemma RowEnd(p: nat, r: nat, a: nat, b: seq<nat>, j: nat, carry: nat) returns (q: nat)
    requires j <= |b|
    requires r + carry * Weight(|b|) == p + a * Value(b[..|b| - j]) * Weight(j)
    ensures r + q * Weight(|b|) == p + a * Value(b) * Weight(j)
  {
    hide Weight, Value;
    var k := |b| - j;
    ValueSplit(b, k);
    WeightAdd(k, j);
    var rest := Value(b[k..]);
    q := carry + a * rest;
    assert a * (Value(b[..k]) + Weight(k) * rest) * Weight(j)
        == a * Value(b[..k]) * Weight(j) + a * rest * (Weight(k) * Weight(j)) by {
      RowSum(a, Value(b[..k]), rest, Weight(k), Weight(j));
    }
    Distribute(carry, a * rest, Weight(|b|));
  }

  // One more row.
  lemma RowsAdd(r: nat, q0: nat, q1: nat, m: nat, p: nat, a: seq<nat>, j: nat, b: nat)
    requires j < |a|
    requires p + q0 * m == Value(a[..j]) * b
    requires r + q1 * m == p + a[j] * b * Weight(j)
    ensures r + (q0 + q1) * m == Value(a[..j + 1]) * b
  {
    hide Weight, Value;
    ValueSnoc(a, j);
    Distribute(q0, q1, m);
    Distribute(Value(a[..j]), a[j] * Weight(j), b);
    assert a[j] * Weight(j) * b == a[j] * b * Weight(j);
  }

  lemma SubtractMod(a: nat, b: nat, m: nat)
    requires a < m && b < m
    ensures (a + (m - b) % m) % m == (a + m - b) % m
    ensures b <= a ==> (a + m - b) % m == a - b
  {
    if b == 0 {
      ModIs(0, 1, m);
      ModIs(a, 1, m);
      ModIs(a, 0, m);
    } else {
      ModIs(m - b, 0, m);
      if b <= a {
        ModIs(a - b, 1, m);
      }
    }
  }

  // ------------------------------------------------------------------- the class

  class BaseUint {
    const pn: array<nat>

    ghost predicate Valid()
      reads pn
    {
      pn.Length > 0 && Ok(pn[..])
    }

    // The number held.
    ghost function Num(): nat
      reads pn
    {
      Value(pn[..])
    }

    // One more than the largest number that fits.
    ghost function Modulus(): (m: nat)
      ensures m > 0
    {
      Weight(pn.Length)
    }

    constructor (width: nat)
      requires width > 0
      ensures Valid() && fresh(pn) && pn.Length == width && Num() == 0
    {
      pn := new nat[width](_ => 0);
      new;
      ValueZeros(pn[..]);
    }

    constructor Copy(b: BaseUint)
      requires b.Valid()
      ensures Valid() && fresh(pn) && pn[..] == b.pn[..] && Num() == b.Num()
    {
      pn := new nat[b.pn.Length](_ => 0);
      new;
      for i := 0 to pn.Length
        invariant pn[..i] == b.pn[..i]
      {
        pn[i] := b.pn[i];
      }
      assert pn[..] == b.pn[..];
    }

    // *this = 0
    method SetZero()
      modifies pn
      ensures Num() == 0 && forall i | 0 <= i < pn.Length :: pn[i] == 0
    {
      for i := 0 to pn.Length
        invariant forall j | 0 <= j < i :: pn[j] == 0
      {
        pn[i] := 0;
      }
      ValueZeros(pn[..]);
    }

    // *this = b
    method SetUint64(b: nat)
      requires Valid() && pn.Length >= 2 && b < BASE * BASE
      modifies pn
      ensures Valid() && Num() == b
    {
      pn[0] := Lo(b);
      pn[1] := Hi(b);
      for i := 2 to pn.Length
        invariant forall j | 2 <= j < i :: pn[j] == 0
        invariant pn[0] == Lo(b) && pn[1] == Hi(b)
      {
        pn[i] := 0;
      }
      TwoLimbs(pn[..]);
      DivMod(b, BASE);
    }

    method GetLow64() returns (low: nat)
      requires Valid() && pn.Length >= 2
      ensures low == Num() % (BASE * BASE)
    {
      low := Or(pn[0], pn[1] * BASE);
      Pow2Table();
      OrCommutes(pn[0], pn[1] * BASE);
      ModIs(0, pn[1], BASE);
      OrIsSum(pn[1] * BASE, pn[0], 32);
      LowTwoLimbs(pn[..]);
    }

    // The low half of the accumulator goes into a limb, the high half is carried.
    method Store(i: nat, n: nat) returns (carry: nat)
      requires Valid() && i < pn.Length
      modifies pn
      ensures Valid() && pn[..] == old(pn[..])[i := Lo(n)] && carry == Hi(n)
    {
      pn[i] := Lo(n);
      carry := Hi(n);
    }

    method Add(b: BaseUint)
      requires Valid() && b.Valid() && b.pn.Length == pn.Length
      modifies pn
      ensures Valid() && Num() == (old(Num()) + old(b.Num())) % Modulus()
    {
      ghost var x, y := pn[..], b.pn[..];
      var carry: nat := 0;
      assert Value(x[..0]) == Value(y[..0]) == 0;
      hide Value, Weight, Lo, Hi;
      for i := 0 to pn.Length
        invariant Valid() && carry <= 1
        invariant pn[i..] == x[i..] && b.pn[i..] == y[i..]
        invariant Value(pn[..][..i]) + carry * Weight(i) == Value(x[..i]) + Value(y[..i])
      {
        assert pn[i] == x[i] && b.pn[i] == y[i] by {
          assert pn[i..][0] == x[i..][0] && b.pn[i..][0] == y[i..][0];
        }
        AddNext(x, y, pn[..], i, carry);
        HiOfSum(carry, x[i], y[i]);
        carry := Store(i, carry + pn[i] + b.pn[i]);
      }
      assert pn[..][..pn.Length] == pn[..] && x[..pn.Length] == x && y[..pn.Length] == y;
      Wraps(pn[..], carry, Value(x) + Value(y));
    }

    // ++pn[i]
    method IncrementAt(i: nat)
      requires Valid() && i < pn.Length
      modifies pn
      ensures Valid() && Num() + (if pn[i] == 0 then Weight(i + 1) else 0) == old(Num()) + Weight(i)
    {
      ghost var r := pn[..];
      hide Value, Weight;
      IncrementLimb(r, i);
      pn[i] := Lo(pn[i] + 1);
      assert pn[..] == r[i := Lo(r[i] + 1)];
    }

    // --pn[i]
    method DecrementAt(i: nat)
      requires Valid() && i < pn.Length
      modifies pn
      ensures Valid() && Num() + Weight(i) == old(Num()) + (if pn[i] == BASE - 1 then Weight(i + 1) else 0)
    {
      ghost var r := pn[..];
      hide Value, Weight;
      DecrementLimb(r, i);
      pn[i] := Lo(pn[i] + BASE - 1);
      assert pn[..] == r[i := Lo(r[i] + BASE - 1)];
    }

    // Prefix ++
    method Increment()
      requires Valid()
      modifies pn
      ensures Valid() && Num() == (old(Num()) + 1) % Modulus()
    {
      WeightNext(0);
      hide Value, Weight;
      var i := 0;
      IncrementAt(0);
      while pn[i] == 0 && i < pn.Length - 1
        invariant 0 <= i < pn.Length && Valid()
        invariant Num() + (if pn[i] == 0 then Weight(i + 1) else 0) == old(Num()) + 1
        decreases pn.Length - i
      {
        i := i + 1;
        IncrementAt(i);
      }
      Wraps(pn[..], if pn[i] == 0 then 1 else 0, old(Num()) + 1);
    }

    // Prefix --
    method Decrement()
      requires Valid()
      modifies pn
      ensures Valid() && Num() == (old(Num()) + Modulus() - 1) % Modulus()
    {
      WeightNext(0);
      hide Value, Weight;
      var i := 0;
      DecrementAt(0);
      while pn[i] == BASE - 1 && i < pn.Length - 1
        invariant 0 <= i < pn.Length && Valid()
        invariant Num() + 1 == old(Num()) + (if pn[i] == BASE - 1 then Weight(i + 1) else 0)
        decreases pn.Length - i
      {
        i := i + 1;
        DecrementAt(i);
      }
      Wraps(pn[..], if pn[i] == BASE - 1 then 0 else 1, old(Num()) + Modulus() - 1);
    }

    // Unary minus: the complement plus one.
    method Negate() returns (ret: BaseUint)
      requires Valid()
      ensures ret.Valid() && fresh(ret) && fresh(ret.pn) && ret.pn.Length == pn.Length
      ensures ret.Num() == (Modulus() - Num()) % Modulus()
    {
      ret := new BaseUint(pn.Length);
      for i := 0 to pn.Length
        invariant Ok(ret.pn[..]) && forall j | 0 <= j < i :: pn[j] + ret.pn[j] == BASE - 1
      {
        ret.pn[i] := BASE - 1 - pn[i];
      }
      ComplementValue(pn[..], ret.pn[..]);
      ret.Increment();
    }

    method Subtract(b: BaseUint)
      requires Valid() && b.Valid() && b.pn.Length == pn.Length
      modifies pn
      ensures Valid() && Num() == (old(Num()) + Modulus() - old(b.Num())) % Modulus()
      ensures old(b.Num()) <= old(Num()) ==> Num() == old(Num()) - old(b.Num())
    {
      var minus := b.Negate();
      Add(minus);
      ValueBound(old(pn[..]));
      ValueBound(old(b.pn[..]));
      SubtractMod(old(Num()), old(b.Num()), Modulus());
    }

    method CompareTo(b: BaseUint) returns (c: int)
      requires Valid() && b.Valid() && b.pn.Length == pn.Length
      ensures -1 <= c <= 1
      ensures c < 0 <==> Num() < b.Num()
      ensures c > 0 <==> Num() > b.Num()
    {
      ghost var x, y := pn[..], b.pn[..];
      hide Value, Weight;
      var i := pn.Length;
      while i > 0
        invariant 0 <= i <= pn.Length && x[i..] == y[i..]
      {
        i := i - 1;
        if pn[i] < b.pn[i] {
          ValueLess(x, y, i);
          return -1;
        }
        if pn[i] > b.pn[i] {
          ValueLess(y, x, i);
          return 1;
        }
        assert x[i..] == [x[i]] + x[i + 1..] && y[i..] == [y[i]] + y[i + 1..];
      }
      assert x[0..] == x && y[0..] == y;
      return 0;
    }

    method MulSmall(m: nat)
      requires Valid() && m < BASE
      modifies pn
      ensures Valid() && Num() == (old(Num()) * m) % Modulus()
    {
      ghost var x := pn[..];
      var carry: nat := 0;
      assert Multiplied(x, m, x, 0, 0);
      hide Value, Weight, Lo, Hi, Accumulated, Multiplied;
      for i := 0 to pn.Length
        invariant Valid() && carry < BASE
        invariant pn[i..] == x[i..]
        invariant Multiplied(x, m, pn[..], i, carry)
      {
        assert pn[i] == x[i];
        AccumulatorFits(carry, 0, m, x[i]);
        MulNext(x, m, pn[..], i, carry);
        carry := Store(i, Accumulated(carry, 0, m, pn[i]));
      }
      MulEnd(x, m, pn[..], carry);
    }

    // One row of the product, with the 64-bit accumulator. Zeroes added to zeroes stay zeroes,
    // which is what happens to an operand multiplied by itself in place.
    method AddRow(x: nat, b: BaseUint, j: nat) returns (ghost q: nat)
      requires Valid() && b.Valid() && b.pn.Length == pn.Length && x < BASE && j < pn.Length
      requires b.pn == pn ==> AllZero(pn[..])
      modifies pn
      ensures Valid()
      ensures b.pn != pn ==> Num() + q * Modulus() == old(Num()) + x * b.Num() * Weight(j)
      ensures b.pn == pn ==> AllZero(pn[..])
    {
      ghost var p, y := pn[..], b.pn[..];
      var carry: nat := 0;
      assert Value(y[..0]) == 0;
      NothingAccumulates(x);
      hide Value, Weight, Lo, Hi, Accumulated;
      var i: nat := 0;
      while i + j < pn.Length
        invariant i <= pn.Length - j && Ok(pn[..]) && carry < BASE
        invariant b.pn == pn ==> AllZero(pn[..]) && carry == 0
        invariant b.pn != pn ==> Value(pn[..]) + carry * Weight(i + j) == Value(p) + x * Value(y[..i]) * Weight(j)
      {
        ghost var r := pn[..];
        AccumulatorFits(carry, pn[i + j], x, b.pn[i]);
        if b.pn != pn {
          RowNext(p, r, x, y, i, j, carry);
        }
        carry := Store(i + j, Accumulated(carry, pn[i + j], x, b.pn[i]));
        i := i + 1;
      }
      q := 0;
      if b.pn != pn {
        q := RowEnd(Value(p), Value(pn[..]), x, y, j, carry);
      }
    }

    // The product modulo 2^(32 * WIDTH), except that an operand multiplied by itself in place is
    // cleared before it is read.
    method Mul(b: BaseUint)
      requires Valid() && b.Valid() && b.pn.Length == pn.Length
      modifies pn
      ensures Valid()
      ensures b.pn != pn ==> Num() == (old(Num()) * b.Num()) % Modulus()
      ensures b.pn == pn ==> Num() == 0
    {
      var a := new BaseUint.Copy(this);
      SetZero();
      ghost var x, y := a.pn[..], b.pn[..];
      ghost var q: nat := 0;
      assert Value(x[..0]) == 0;
      hide Value, Weight, Lo, Hi;
      for j := 0 to pn.Length
        invariant Valid() && a.pn[..] == x
        invariant b.pn != pn ==> b.pn[..] == y && Num() + q * Modulus() == Value(x[..j]) * Value(y)
        invariant b.pn == pn ==> AllZero(pn[..])
      {
        ghost var p := Num();
        ghost var q1 := AddRow(a.pn[j], b, j);
        if b.pn != pn {
          RowsAdd(Num(), q, q1, Modulus(), p, x, j, Value(y));
        }
        q := q + q1;
      }
      assert x[..pn.Length] == x;
      if b.pn != pn {
        Wraps(pn[..], q, Value(x) * Value(y));
      } else {
        ValueZeros(pn[..]);
      }
    }

    // <<=
    method ShiftLeft(bits: nat)
      requires Valid()
      modifies pn
      ensures Valid() && Num() == (old(Num()) * Pow2(bits)) % Modulus()
    {
      var a := new BaseUint.Copy(this);
      SetZero();
      var k, t := bits / 32, bits % 32;
      ghost var x := a.pn[..];
      hide Value, Weight, LeftLow, LeftHigh, Or;
      assert IsLeft(x, k, t, 0, pn[..]);
      for i := 0 to pn.Length
        invariant a.pn[..] == x && IsLeft(x, k, t, i, pn[..])
      {
        ghost var r := pn[..];
        if i + k + 1 < pn.Length && t != 0 {
          pn[i + k + 1] := Or(pn[i + k + 1], LeftHigh(a.pn[i], t));
        }
        ghost var r1 := pn[..];
        if i + k < pn.Length {
          pn[i + k] := Or(pn[i + k], LeftLow(a.pn[i], t));
        }
        LeftNext(x, k, t, i, r, r1, pn[..]);
      }
      LeftValue(x, k, t, pn[..]);
    }

    // >>=
    method ShiftRight(bits: nat)
      requires Valid()
      modifies pn
      ensures Valid() && Num() == old(Num()) / Pow2(bits)
    {
      var a := new BaseUint.Copy(this);
      SetZero();
      var k, t := bits / 32, bits % 32;
      ghost var x := a.pn[..];
      hide Value, Weight, RightLow, RightHigh, Or;
      assert IsRight(x, k, t, 0, pn[..]);
      for i := 0 to pn.Length
        invariant a.pn[..] == x && IsRight(x, k, t, i, pn[..])
      {
        ghost var r := pn[..];
        if i - k - 1 >= 0 && t != 0 {
          pn[i - k - 1] := Or(pn[i - k - 1], RightHigh(a.pn[i], t));
        }
        ghost var r1 := pn[..];
        if i - k >= 0 {
          pn[i - k] := Or(pn[i - k], RightLow(a.pn[i], t));
        }
        RightNext(x, k, t, i, r, r1, pn[..]);
      }
      RightValue(x, k, t, pn[..]);
    }

    // The position of the highest bit set plus one, or zero if the value is zero.
    method Bits() returns (n: nat)
      requires Valid()
      ensures n <= 32 * pn.Length
      ensures n == 0 <==> Num() == 0
      ensures n > 0 ==> Pow2(n - 1) <= Num() < Pow2(n)
    {
      ghost var s := pn[..];
      var pos := pn.Length - 1;
      while pos >= 0
        invariant -1 <= pos < pn.Length && forall i | pos < i < |s| :: s[i] == 0
      {
        if pn[pos] != 0 {
          n := LimbBits(pn[pos]);
          HighestBit(s, pos, n - 1);
          return 32 * pos + n;
        }
        pos := pos - 1;
      }
      ValueZeros(s);
      return 0;
    }

    // |= of a bit below which nothing is set.
    method SetBit(n: nat)
      requires Valid() && n / 32 < pn.Length && LowClear(pn[..], n + 1)
      modifies pn
      ensures Valid() && LowClear(pn[..], n) && Num() == old(Num()) + Pow2(n)
    {
      ghost var s := pn[..];
      SetBitAdds(s, n);
      var x := Or(pn[n / 32], Pow2(n % 32));
      pn[n / 32] := x;
      assert pn[..] == s[n / 32 := x];
    }

    // /=: a zero divisor is refused, after this has been cleared; the quotient is exact.
    method Divide(b: BaseUint) returns (ok: bool)
      requires Valid() && b.Valid() && b.pn.Length == pn.Length
      modifies pn
      ensures Valid() && (ok <==> old(b.Num()) != 0)
      ensures ok ==> Num() == old(Num()) / old(b.Num())
      ensures !ok ==> Num() == 0
    {
      var div := new BaseUint.Copy(b);
      var num := new BaseUint.Copy(this);
      ghost var n, d := num.Num(), div.Num();
      SetZero();
      var numBits := num.Bits();
      var divBits := div.Bits();
      if divBits == 0 {
        return false;
      }
      hide Value, Weight;
      if divBits > numBits {
        QuotientZero(n, numBits, d, divBits);
        return true;
      }
      var shift := numBits - divBits;
      Aligned(n, numBits, d, divBits);
      div.ShiftLeft(shift);
      Pow2Within(numBits, pn.Length);
      ModIs(d * Pow2(shift), 0, div.Modulus());
      LongDivision(num, div, shift, n, d);
      QuotientIs(n, d, Num(), num.Num());
      return true;
    }

    // The loop of /=: from the aligned divisor down to the divisor itself.
    method LongDivision(num: BaseUint, div: BaseUint, top: nat, ghost n: nat, ghost d: nat)
      requires Valid() && num.Valid() && div.Valid() && num.pn.Length == div.pn.Length == pn.Length
      requires pn != num.pn && pn != div.pn && num.pn != div.pn
      requires top / 32 < pn.Length && AllZero(pn[..]) && Num() == 0
      requires num.Num() == n < d * Pow2(top + 1) && div.Num() == d * Pow2(top)
      modifies pn, num.pn, div.pn
      ensures Valid() && num.Num() + d * Num() == n && num.Num() < d
    {
      hide Value, Weight;
      var shift: int := top;
      AllClear(pn[..], top + 1);
      while shift >= 0
        invariant -1 <= shift <= top
        invariant Valid() && num.Valid() && div.Valid()
        invariant LowClear(pn[..], shift + 1)
        invariant num.Num() + d * Num() == n && num.Num() < d * Pow2(shift + 1)
        invariant shift >= 0 ==> div.Num() == d * Pow2(shift)
      {
        DivideBit(num, div, shift, n, d);
        div.ShiftRight(1);
        if shift > 0 {
          HalfDivisor(d, shift);
        }
        shift := shift - 1;
      }
    }

    // One bit of the quotient.
    method DivideBit(num: BaseUint, div: BaseUint, shift: nat, ghost n: nat, ghost d: nat)
      requires Valid() && num.Valid() && div.Valid() && num.pn.Length == div.pn.Length == pn.Length
      requires pn != num.pn && pn != div.pn && num.pn != div.pn
      requires shift / 32 < pn.Length && LowClear(pn[..], shift + 1)
      requires num.Num() + d * Num() == n && num.Num() < d * Pow2(shift + 1) && div.Num() == d * Pow2(shift)
      modifies pn, num.pn
      ensures Valid() && num.Valid() && LowClear(pn[..], shift)
      ensures num.Num() + d * Num() == n && num.Num() < d * Pow2(shift)
    {
      hide Value, Weight;
      DivideStep(n, d, num.Num(), Num(), shift);
      LowClearLess(pn[..], shift);
      var c := num.CompareTo(div);
      if c >= 0 {
        num.Subtract(div);
        SetBit(shift);
      }
    }
  }

  lemma AllClear(s: seq<nat>, n: int)
    requires AllZero(s)
    ensures LowClear(s, n)
  {
    forall j | 0 <= j < |s|
      ensures ClearAt(s[j], n, j)
    {
      if 32 * j < n {
        ModIs(0, 0, Pow2(n - 32 * j));
      }
    }
  }

  lemma QuotientZero(n: nat, nb: nat, d: nat, db: nat)
    requires nb < db && (if nb == 0 then n == 0 else n < Pow2(nb)) && Pow2(db - 1) <= d
    ensures d > 0 && n / d == 0
  {
    Pow2Grows(nb, db - 1);
    ModIs(n, 0, d);
  }

  lemma QuotientIs(n: nat, d: nat, q: nat, r: nat)
    requires r + d * q == n && r < d
    ensures n / d == q
  {
    ModIs(r, q, d);
  }

  lemma Pow2Within(bits: nat, width: nat)
    requires bits <= 32 * width
    ensures Pow2(bits) <= Weight(width)
  {
    Pow2Grows(bits, 32 * width);
  }

  method LimbBits(x: nat) returns (n: nat)
    requires 0 < x < BASE
    ensures 1 <= n <= 32 && Pow2(n - 1) <= x < Pow2(n)
  {
    Pow2Table();
    hide Pow2;
    var bits := 31;
    while bits > 0
      invariant 0 <= bits <= 31 && x < Pow2(bits + 1)
    {
      TopBit(x, bits);
      if TestBit(x, bits) {
        return bits + 1;
      }
      bits := bits - 1;
    }
    return 1;
  }

  predicate AllZero(s: seq<nat>) {
    forall i | 0 <= i < |s| :: s[i] == 0
  }

  lemma NothingAccumulates(x: nat)
    ensures Lo(Accumulated(0, 0, x, 0)) == 0 && Hi(Accumulated(0, 0, x, 0)) == 0
  {
  }

  // The 64-bit accumulator never overflows, and what it carries fits in 32 bits.
  lemma AccumulatorFits(carry: nat, p: nat, a: nat, b: nat)
    requires carry < BASE && p < BASE && a < BASE && b < BASE
    ensures Accumulated(carry, p, a, b) < BASE * BASE == 0x1_0000_0000_0000_0000
    ensures Hi(Accumulated(carry, p, a, b)) < BASE
  {
    MulMonotone(a, BASE - 1, b, BASE - 1);
  }
}
