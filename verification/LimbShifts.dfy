/**
 What shifting a number of limbs by 32 * k + t bits puts in each limb, and what number that is.
 */
module LimbShifts {
  import opened Arith
  import opened Limbs

  // --------------------------------------------------------------------- one limb

  // x << t and x >> (32 - t) on 32 bits.
  function LeftLow(x: nat, t: nat): nat { (x * Pow2(t)) % BASE }

  function LeftHigh(x: nat, t: nat): nat
    requires t < 32
  {
    DivMod(x, Pow2(32 - t));
    x / Pow2(32 - t)
  }

  // x >> t and x << (32 - t) on 32 bits.
  function RightLow(x: nat, t: nat): nat {
    DivMod(x, Pow2(t));
    x / Pow2(t)
  }

  function RightHigh(x: nat, t: nat): nat
    requires t < 32
  {
    (x * Pow2(32 - t)) % BASE
  }

  lemma Complementary(t: nat)
    requires t <= 32
    ensures Pow2(t) * Pow2(32 - t) == BASE
  {
    Pow2Add(t, 32 - t);
    Pow2Table();
  }

  lemma HalvesProduct(q: nat, r: nat, p: nat, s: nat)
    ensures (q * s + r) * p == r * p + q * (p * s)
  {
    Distribute(q * s, r, p);
    assert q * s * p == q * (p * s);
  }

  lemma HalvesBound(x: nat, q: nat, r: nat, p: nat, s: nat, m: nat)
    requires p > 0 && m == p * s && x == q * s + r < m && r < s
    ensures x * p == r * p + q * m && r * p < m && q < p
  {
    HalvesProduct(q, r, p, s);
    MulMonotone(r + 1, s, p, p);
    Distribute(r, 1, p);
    if q >= p {
      MulMonotone(p, q, s, s);
    }
  }

  // x * p modulo p * s is the remainder by s times p.
  lemma Halves(x: nat, p: nat, s: nat, m: nat)
    requires p > 0 && s > 0 && m == p * s && x < m
    ensures x * p == (x % s) * p + (x / s) * m
    ensures (x % s) * p < m && (x * p) % m == (x % s) * p
    ensures ((x % s) * p) % p == 0
    ensures 0 <= x / s < p
  {
    DivMod(x, s);
    var q, r := x / s, x % s;
    HalvesBound(x, q, r, p, s, m);
    ModIs(r * p, q, m);
    ModIs(0, r, p);
  }

  // The two halves of x * 2^t.
  lemma LeftParts(x: nat, t: nat)
    requires t < 32 && x < BASE
    ensures x * Pow2(t) == LeftHigh(x, t) * BASE + LeftLow(x, t)
    ensures LeftHigh(x, t) < Pow2(t) && LeftLow(x, t) < BASE && LeftLow(x, t) % Pow2(t) == 0
  {
    Complementary(t);
    hide Pow2;
    Halves(x, Pow2(t), Pow2(32 - t), BASE);
  }

  // The quotient and the remainder by 2^t, the latter at the top of the limb.
  lemma RightParts(x: nat, t: nat)
    requires t < 32 && x < BASE
    ensures RightLow(x, t) < Pow2(32 - t) && RightHigh(x, t) < BASE && RightHigh(x, t) % Pow2(32 - t) == 0
    ensures RightLow(x, t) * Pow2(t) + x % Pow2(t) == x
    ensures RightHigh(x, t) * Pow2(t) == (x % Pow2(t)) * BASE
  {
    Complementary(t);
    hide Pow2;
    var p, s := Pow2(t), Pow2(32 - t);
    assert s * p == p * s;
    Halves(x, s, p, BASE);
    DivMod(x, p);
    MulAssociates(x % p, s, p);
  }

  // -------------------------------------------------------------------- left shift

  // What the first n limbs of a put in limb j.
  function LeftAt(a: seq<nat>, k: nat, t: nat, n: nat, j: nat): nat
    requires t < 32 && n <= |a|
  {
    (if k <= j < n + k then LeftLow(a[j - k], t) else 0) + (if k + 1 <= j < n + k + 1 then LeftHigh(a[j - k - 1], t) else 0)
  }

  ghost predicate IsLeft(a: seq<nat>, k: nat, t: nat, n: nat, r: seq<nat>)
    requires t < 32
  {
    n <= |a| == |r| && forall j | 0 <= j < |r| :: r[j] == LeftAt(a, k, t, n, j)
  }

  lemma LeftStepArith(v: nat, h: nat, w: nat, x: nat, p: nat, va: nat, hn: nat, ln: nat)
    requires v + h * w == va * p && x * p == hn * BASE + ln
    ensures v + (ln + h) * w + hn * (w * BASE) == (va + x * w) * p
  {
    Distribute(ln, h, w);
    Distribute(va, x * w, p);
    assert x * w * p == (x * p) * w;
    Distribute(hn * BASE, ln, w);
    assert hn * BASE * w == hn * (w * BASE);
  }

  // The high half that the limb before i hands on.
  function Handed(a: seq<nat>, t: nat, i: nat): nat
    requires t < 32 && i <= |a|
  {
    if i == 0 then 0 else LeftHigh(a[i - 1], t)
  }

  // Without whole limbs: the first i limbs, and what is handed on, are the first i limbs times 2^t.
  lemma {:induction false} LeftBits(a: seq<nat>, t: nat, c: seq<nat>, i: nat)
    requires t < 32 && Ok(a) && i <= |c| <= |a|
    requires forall j | 0 <= j < |c| :: c[j] == LeftLow(a[j], t) + Handed(a, t, j)
    ensures Value(c[..i]) + Handed(a, t, i) * Weight(i) == Value(a[..i]) * Pow2(t)
  {
    hide Weight, LeftLow, LeftHigh, Pow2;
    if i == 0 {
      assert c[..0] == [] && a[..0] == [];
    } else {
      hide Value;
      var n := i - 1;
      LeftBits(a, t, c, n);
      LeftParts(a[n], t);
      ValueSnoc(c, n);
      ValueSnoc(a, n);
      WeightNext(n);
      var h := Handed(a, t, n);
      assert Handed(a, t, i) == LeftHigh(a[n], t) && c[n] == LeftLow(a[n], t) + h;
      hide Handed;
      LeftStepArith(Value(c[..n]), h, Weight(n), a[n], Pow2(t), Value(a[..n]), LeftHigh(a[n], t), LeftLow(a[n], t));
    }
  }

  lemma LeftArith(vc: nat, h: nat, v: nat, rest: nat, p: nat, wk: nat, wm: nat, ww: nat)
    requires vc + h * wm == v * p && ww == wk * wm
    ensures wk * vc + (h + rest * p) * ww == (v + wm * rest) * (p * wk)
  {
    Distribute(h, rest * p, ww);
    assert (vc + h * wm) * wk == vc * wk + h * ww by {
      Distribute(vc, h * wm, wk);
      assert h * wm * wk == h * (wk * wm);
    }
    assert (v * p) * wk == v * (p * wk);
    Distribute(v, wm * rest, p * wk);
    assert wm * rest * (p * wk) == rest * p * (wk * wm);
  }

  // The shifted limbs hold the number times 2^(32k + t), modulo the width.
  lemma LeftValue(a: seq<nat>, k: nat, t: nat, r: seq<nat>)
    requires t < 32 && Ok(a) && |a| > 0 && IsLeft(a, k, t, |a|, r)
    ensures Ok(r) && Value(r) == (Value(a) * Pow2(32 * k + t)) % Weight(|a|)
  {
    LeftOk(a, k, t, |a|, r);
    Pow2Add(t, 32 * k);
    if k >= |a| {
      LeftValueBeyond(a, k, t, r);
    } else {
      LeftValueWithin(a, k, t, r);
    }
  }

  lemma LeftValueBeyond(a: seq<nat>, k: nat, t: nat, r: seq<nat>)
    requires t < 32 && |a| <= k && IsLeft(a, k, t, |a|, r)
    ensures Value(r) == (Value(a) * (Pow2(t) * Weight(k))) % Weight(|a|)
  {
    hide Weight, Pow2, Value, LeftLow, LeftHigh;
    assert forall j | 0 <= j < |a| :: r[j] == 0;
    ValueZeros(r);
    WeightAdd(|a|, k - |a|);
    MultipleWraps(Value(a), Pow2(t), Weight(|a|), Weight(k - |a|));
  }

  lemma MultipleWraps(v: nat, p: nat, x: nat, y: nat)
    requires x > 0
    ensures (v * (p * (x * y))) % x == 0
  {
    Regroup(v, p, x, y);
    ModIs(0, v * p * y, x);
  }

  lemma Regroup(v: nat, p: nat, x: nat, y: nat)
    ensures v * (p * (x * y)) == v * p * y * x
  {
    assert p * (x * y) == p * y * x;
  }

  lemma LeftValueWithin(a: seq<nat>, k: nat, t: nat, r: seq<nat>)
    requires t < 32 && Ok(a) && k < |a| && IsLeft(a, k, t, |a|, r) && Ok(r)
    ensures Value(r) == (Value(a) * (Pow2(t) * Weight(k))) % Weight(|a|)
  {
    hide Weight, Pow2, Value, LeftLow, LeftHigh;
    var w, m := |a|, |a| - k;
    var c := r[k..];
    assert forall j | 0 <= j < k :: r[..k][j] == 0;
    assert forall j | 0 <= j < |c| :: c[j] == LeftLow(a[j], t) + Handed(a, t, j);
    ValueZeros(r[..k]);
    ValueSplit(r, k);
    LeftBits(a, t, c, m);
    assert c[..m] == c;
    ValueSplit(a, m);
    WeightAdd(k, m);
    ValueBound(r);
    hide IsLeft, Handed;
    LeftArith(Value(c), Handed(a, t, m), Value(a[..m]), Value(a[m..]), Pow2(t), Weight(k), Weight(m), Weight(w));
    ModIs(Value(r), Handed(a, t, m) + Value(a[m..]) * Pow2(t), Weight(w));
  }

  // A low half and the high half below it have no bit in common.
  lemma LeftFits(x: nat, y: nat, t: nat)
    requires t < 32 && x < BASE && y < BASE
    ensures Or(LeftHigh(y, t), LeftLow(x, t)) == LeftLow(x, t) + LeftHigh(y, t) < BASE
  {
    LeftParts(x, t);
    LeftParts(y, t);
    OrCommutes(LeftHigh(y, t), LeftLow(x, t));
    OrIsSum(LeftLow(x, t), LeftHigh(y, t), t);
    MultipleBelow(LeftLow(x, t), t);
  }

  // A multiple of 2^t below 2^32 leaves room for 2^t.
  lemma MultipleBelow(x: nat, t: nat)
    requires t <= 32 && x < BASE && x % Pow2(t) == 0
    ensures x + Pow2(t) <= BASE
  {
    Complementary(t);
    hide Pow2;
    DivMod(x, Pow2(t));
    QuotientBelow(x / Pow2(t), Pow2(t), Pow2(32 - t));
  }

  lemma QuotientBelow(q: nat, p: nat, s: nat)
    requires q * p < p * s
    ensures q * p + p <= p * s
  {
    if q >= s {
      MulMonotone(s, q, p, p);
    } else {
      MulMonotone(q + 1, s, p, p);
      Distribute(q, 1, p);
    }
  }

  lemma LeftOk(a: seq<nat>, k: nat, t: nat, n: nat, r: seq<nat>)
    requires t < 32 && Ok(a) && IsLeft(a, k, t, n, r)
    ensures Ok(r)
  {
    hide LeftLow, LeftHigh, Or;
    forall j | 0 <= j < |r|
      ensures r[j] < BASE
    {
      assert r[j] == LeftAt(a, k, t, n, j);
      var x := if k <= j < n + k then a[j - k] else 0;
      var y := if k + 1 <= j < n + k + 1 then a[j - k - 1] else 0;
      LeftFits(x, y, t);
      HalvesOfZero(t);
    }
  }

  lemma HalvesOfZero(t: nat)
    requires t < 32
    ensures LeftLow(0, t) == 0 && LeftHigh(0, t) == 0 && RightLow(0, t) == 0 && RightHigh(0, t) == 0
  {
  }

  // ------------------------------------------------------------------- right shift

  function RightAt(a: seq<nat>, k: nat, t: nat, n: nat, j: nat): nat
    requires t < 32 && n <= |a|
  {
    (if j + k < n then RightLow(a[j + k], t) else 0) + (if j + k + 1 < n then RightHigh(a[j + k + 1], t) else 0)
  }

  ghost predicate IsRight(a: seq<nat>, k: nat, t: nat, n: nat, r: seq<nat>)
    requires t < 32
  {
    n <= |a| == |r| && forall j | 0 <= j < |r| :: r[j] == RightAt(a, k, t, n, j)
  }

  lemma RightFits(x: nat, y: nat, t: nat)
    requires t < 32 && x < BASE && y < BASE
    ensures Or(RightLow(x, t), RightHigh(y, t)) == RightLow(x, t) + RightHigh(y, t) < BASE
  {
    RightParts(x, t);
    RightParts(y, t);
    OrCommutes(RightLow(x, t), RightHigh(y, t));
    OrIsSum(RightHigh(y, t), RightLow(x, t), 32 - t);
    MultipleBelow(RightHigh(y, t), 32 - t);
  }

  lemma RightOk(a: seq<nat>, k: nat, t: nat, n: nat, r: seq<nat>)
    requires t < 32 && Ok(a) && IsRight(a, k, t, n, r)
    ensures Ok(r)
  {
    hide RightLow, RightHigh, Or;
    forall j | 0 <= j < |r|
      ensures r[j] < BASE
    {
      assert r[j] == RightAt(a, k, t, n, j);
      var x := if j + k < n then a[j + k] else 0;
      var y := if j + k + 1 < n then a[j + k + 1] else 0;
      RightFits(x, y, t);
      HalvesOfZero(t);
    }
  }

  lemma RightStepArith(vd: nat, p: nat, r0: nat, vb: nat, rn: nat, w: nat, low: nat, high: nat, x: nat, rm: nat)
    requires vd * p + r0 == vb + rn * w && low * p + rn == x && high * p == rm * BASE
    ensures (vd + (low + high) * w) * p + r0 == (vb + x * w) + rm * (w * BASE)
  {
    Distribute(vd, (low + high) * w, p);
    assert (low + high) * w * p == (low * p) * w + (high * p) * w by {
      Distribute(low, high, w);
      Distribute(low * w, high * w, p);
      assert low * w * p == (low * p) * w;
      assert high * w * p == (high * p) * w;
    }
    Distribute(low * p, rn, w);
    assert rm * BASE * w == rm * (w * BASE);
  }

  // The remainder that limb i owes to the one below.
  function Owed(b: seq<nat>, t: nat, i: nat): nat {
    if i < |b| then b[i] % Pow2(t) else 0
  }

  lemma {:induction false} RightBits(b: seq<nat>, t: nat, d: seq<nat>, i: nat)
    requires t < 32 && Ok(b) && |d| == |b| && i <= |b|
    requires forall j | 0 <= j < |d| :: d[j] == RightAt(b, 0, t, |b|, j)
    ensures Value(d[..i]) * Pow2(t) + Owed(b, t, 0) == Value(b[..i]) + Owed(b, t, i) * Weight(i)
  {
    hide Weight, RightLow, RightHigh, Pow2;
    WeightNext(0);
    if i > 0 {
      var n := i - 1;
      RightBits(b, t, d, n);
      RightParts(b[n], t);
      ValueSnoc(d, n);
      ValueSnoc(b, n);
      WeightNext(n);
      var high := if i < |b| then RightHigh(b[i], t) else 0;
      if i < |b| {
        RightParts(b[i], t);
      }
      RightStepArith(Value(d[..n]), Pow2(t), Owed(b, t, 0), Value(b[..n]), Owed(b, t, n), Weight(n),
                     RightLow(b[n], t), high, b[n], Owed(b, t, i));
    }
  }

  // The shifted limbs hold the number divided by 2^(32k + t).
  lemma RightValue(a: seq<nat>, k: nat, t: nat, r: seq<nat>)
    requires t < 32 && Ok(a) && IsRight(a, k, t, |a|, r)
    ensures Ok(r) && Value(r) == Value(a) / Pow2(32 * k + t)
  {
    RightOk(a, k, t, |a|, r);
    Pow2Add(32 * k, t);
    DivTwice(Value(a), Weight(k), Pow2(t));
    if k >= |a| {
      assert forall j | 0 <= j < |r| :: r[j] == 0;
      ValueZeros(r);
      ValueBound(a);
      Pow2Grows(32 * |a|, 32 * k);
      ModIs(Value(a), 0, Weight(k));
      ModIs(0, 0, Pow2(t));
    } else {
      RightValueWithin(a, k, t, r);
    }
  }

  lemma RightValueWithin(a: seq<nat>, k: nat, t: nat, r: seq<nat>)
    requires t < 32 && Ok(a) && k < |a| && IsRight(a, k, t, |a|, r)
    ensures Value(r) == Value(a) / Weight(k) / Pow2(t)
  {
    hide Weight, Pow2, Value, RightLow, RightHigh;
    var b, m := a[k..], |a| - k;
    var d := r[..m];
    assert forall j | 0 <= j < m :: d[j] == RightAt(b, 0, t, m, j);
    RightBits(b, t, d, m);
    assert b[..m] == b && d[..m] == d;
    assert forall j | 0 <= j < |r[m..]| :: r[m..][j] == 0;
    ValueZeros(r[m..]);
    ValueSplit(r, m);
    hide IsRight;
    RightQuotient(a, k, t, Value(d));
  }

  lemma RightQuotient(a: seq<nat>, k: nat, t: nat, v: nat)
    requires k < |a| && Ok(a) && v * Pow2(t) + Owed(a[k..], t, 0) == Value(a[k..])
    ensures v == Value(a) / Weight(k) / Pow2(t)
  {
    hide Weight, Pow2, Value;
    ValueSplit(a, k);
    ValueBound(a[..k]);
    DivMod(a[k..][0], Pow2(t));
    QuotientTwice(Value(a), Value(a[..k]), Value(a[k..]), Weight(k), v, Owed(a[k..], t, 0), Pow2(t));
  }

  lemma QuotientTwice(x: nat, low: nat, high: nat, w: nat, v: nat, r: nat, p: nat)
    requires x == low + w * high && low < w && high == v * p + r && r < p
    ensures x / w / p == v
  {
    ModIs(low, high, w);
    ModIs(r, v, p);
  }

  // ------------------------------------------------------------ the loops, step by step

  // One more limb of the left shift: its high half, then its low half, are or-ed in.
  lemma LeftNext(a: seq<nat>, k: nat, t: nat, i: nat, r: seq<nat>, r1: seq<nat>, r2: seq<nat>)
    requires t < 32 && Ok(a) && i < |a| && IsLeft(a, k, t, i, r)
    requires r1 == if i + k + 1 < |a| && t != 0 then r[i + k + 1 := Or(r[i + k + 1], LeftHigh(a[i], t))] else r
    requires r2 == if i + k < |a| then r1[i + k := Or(r1[i + k], LeftLow(a[i], t))] else r1
    ensures IsLeft(a, k, t, i + 1, r2)
  {
    if t == 0 {
      NothingHigh(a[i]);
    }
    if i > 0 {
      LeftFits(a[i], a[i - 1], t);
    } else {
      LeftFits(a[i], 0, t);
      HalvesOfZero(t);
    }
    assert Or(0, LeftHigh(a[i], t)) == LeftHigh(a[i], t);
    hide LeftLow, LeftHigh, Or;
    forall j | 0 <= j < |r2|
      ensures r2[j] == LeftAt(a, k, t, i + 1, j)
    {
      assert r[j] == LeftAt(a, k, t, i, j);
    }
  }

  lemma NothingHigh(x: nat)
    requires x < BASE
    ensures LeftHigh(x, 0) == 0 && RightHigh(x, 0) == 0
  {
    Pow2Table();
    ModIs(x, 0, BASE);
    ModIs(0, x, BASE);
  }

  lemma RightNext(a: seq<nat>, k: nat, t: nat, i: nat, r: seq<nat>, r1: seq<nat>, r2: seq<nat>)
    requires t < 32 && Ok(a) && i < |a| && IsRight(a, k, t, i, r)
    requires r1 == if i - k - 1 >= 0 && t != 0 then r[i - k - 1 := Or(r[i - k - 1], RightHigh(a[i], t))] else r
    requires r2 == if i - k >= 0 then r1[i - k := Or(r1[i - k], RightLow(a[i], t))] else r1
    ensures IsRight(a, k, t, i + 1, r2)
  {
    if t == 0 {
      NothingHigh(a[i]);
    }
    if i > 0 {
      RightFits(a[i - 1], a[i], t);
    }
    assert Or(0, RightLow(a[i], t)) == RightLow(a[i], t);
    hide RightLow, RightHigh, Or;
    forall j | 0 <= j < |r2|
      ensures r2[j] == RightAt(a, k, t, i + 1, j)
    {
      assert r[j] == RightAt(a, k, t, i, j);
    }
  }

  // --------------------------------------------------------------------- highest bit

  // Below 2^(b + 1), bit b is set exactly from 2^b on.
  lemma TopBit(x: nat, b: nat)
    requires x < Pow2(b + 1)
    ensures TestBit(x, b) <==> x >= Pow2(b)
  {
    var p := Pow2(b);
    if x >= p {
      ModIs(x - p, 1, p);
    } else {
      ModIs(x, 0, p);
    }
  }

  lemma Bracket(v: nat, low: nat, x: nat, w: nat, p: nat, q: nat)
    requires v == low + x * w && low < w && p <= x < q
    ensures w * p <= v < w * q
  {
    MulMonotone(p, x, w, w);
    MulMonotone(x + 1, q, w, w);
    Distribute(x, 1, w);
  }

  // The highest bit of the highest limb that is not zero.
  lemma HighestBit(s: seq<nat>, pos: nat, b: nat)
    requires Ok(s) && pos < |s| && Pow2(b) <= s[pos] < Pow2(b + 1)
    requires forall i | pos < i < |s| :: s[i] == 0
    ensures Pow2(32 * pos + b) <= Value(s) < Pow2(32 * pos + b + 1)
  {
    Pow2Add(32 * pos, b);
    Pow2Add(32 * pos, b + 1);
    assert 32 * pos + (b + 1) == 32 * pos + b + 1;
    hide Pow2, Value;
    ValueSplit(s, pos + 1);
    ValueZeros(s[pos + 1..]);
    ValueSnoc(s, pos);
    ValueBound(s[..pos]);
    Bracket(Value(s), Value(s[..pos]), s[pos], Weight(pos), Pow2(b), Pow2(b + 1));
  }

  // ------------------------------------------------------------- setting quotient bits

  // Bits below n are clear.
  ghost predicate ClearAt(x: nat, n: int, j: nat) {
    if 32 * (j + 1) <= n then x == 0
    else if 32 * j < n then x % Pow2(n - 32 * j) == 0
    else true
  }

  ghost predicate LowClear(s: seq<nat>, n: int) {
    forall j | 0 <= j < |s| :: ClearAt(s[j], n, j)
  }

  lemma ClearLess(x: nat, n: int, j: nat)
    requires ClearAt(x, n + 1, j)
    ensures ClearAt(x, n, j)
  {
    if 32 * j < n < 32 * (j + 1) {
      if 32 * (j + 1) <= n + 1 {
        ModIs(0, 0, Pow2(n - 32 * j));
      } else {
        EvenMultiple(x, n - 32 * j);
      }
    }
  }

  lemma EvenMultiple(x: nat, k: nat)
    requires x % Pow2(k + 1) == 0
    ensures x % Pow2(k) == 0 && (x + Pow2(k)) % Pow2(k) == 0
  {
    var p := Pow2(k);
    DivMod(x, Pow2(k + 1));
    var q := x / Pow2(k + 1);
    assert x == 0 + (q * 2) * p;
    ModIs(0, q * 2, p);
    assert x + p == 0 + (q * 2 + 1) * p;
    ModIs(0, q * 2 + 1, p);
  }

  lemma LowClearLess(s: seq<nat>, n: int)
    requires LowClear(s, n + 1)
    ensures LowClear(s, n)
  {
    forall j | 0 <= j < |s|
      ensures ClearAt(s[j], n, j)
    {
      ClearLess(s[j], n, j);
    }
  }

  // Or-ing in bit n, below which nothing is set, adds 2^n.
  lemma SetBitAdds(s: seq<nat>, n: nat)
    requires Ok(s) && n / 32 < |s| && LowClear(s, n + 1)
    ensures
      var j := n / 32;
      var x := Or(s[j], Pow2(n % 32));
      Ok(s[j := x]) && LowClear(s[j := x], n) && Value(s[j := x]) == Value(s) + Pow2(n)
  {
    var j, b := n / 32, n % 32;
    var x := Or(s[j], Pow2(b));
    assert ClearAt(s[j], n + 1, j);
    BitAdds(s[j], b);
    ValueUpdate(s, j, x);
    Pow2Add(b, 32 * j);
    Distribute(s[j], Pow2(b), Weight(j));
    hide Pow2, Or, ClearAt;
    var u := s[j := x];
    forall i | 0 <= i < |u|
      ensures ClearAt(u[i], n, i)
    {
      if i == j {
        ClearSet(x, n, b, j);
      } else {
        ClearLess(s[i], n, i);
      }
    }
  }

  lemma ClearSet(x: nat, n: nat, b: nat, j: nat)
    requires j == n / 32 && b == n % 32 && x % Pow2(b) == 0
    ensures ClearAt(x, n, j)
  {
  }

  lemma BitAdds(x: nat, b: nat)
    requires b < 32 && x < BASE && (if b == 31 then x == 0 else x % Pow2(b + 1) == 0)
    ensures Or(x, Pow2(b)) == x + Pow2(b) < BASE && (x + Pow2(b)) % Pow2(b) == 0
  {
    Pow2Table();
    if b == 31 {
      ModIs(0, 1, Pow2(b));
    } else {
      EvenMultiple(x, b);
      OrIsSum(x, Pow2(b), b + 1);
      MultipleBelow(x, b + 1);
    }
  }

  // -------------------------------------------------------------------- long division

  // One step of the long division of n by d: bit s of the quotient.
  lemma DivideStep(n: nat, d: nat, num: nat, q: nat, s: nat)
    requires num + d * q == n && num < d * Pow2(s + 1)
    ensures num >= d * Pow2(s) ==> num - d * Pow2(s) + d * (q + Pow2(s)) == n && num - d * Pow2(s) < d * Pow2(s)
  {
    Distribute(q, Pow2(s), d);
  }

  lemma HalfDivisor(d: nat, s: nat)
    requires s > 0
    ensures (d * Pow2(s)) / 2 == d * Pow2(s - 1)
  {
    assert d * Pow2(s) == (d * Pow2(s - 1)) * 2;
  }

  // The aligned divisor: it fits, and twice it exceeds the dividend.
  lemma Aligned(n: nat, nb: nat, d: nat, db: nat)
    requires 0 < db <= nb && Pow2(nb - 1) <= n < Pow2(nb) && Pow2(db - 1) <= d < Pow2(db)
    ensures d * Pow2(nb - db) < Pow2(nb) && n < d * Pow2(nb - db + 1)
  {
    Pow2Add(db, nb - db);
    Pow2Add(db - 1, nb - db + 1);
    MulMonotone(d + 1, Pow2(db), Pow2(nb - db), Pow2(nb - db));
    Distribute(d, 1, Pow2(nb - db));
    MulMonotone(Pow2(db - 1), d, Pow2(nb - db + 1), Pow2(nb - db + 1));
  }
}
