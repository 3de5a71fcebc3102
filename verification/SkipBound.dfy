/**
 How many heights GetAncestor visits on its way back (src/chain.cpp): right below a multiple of a
 large power of two the number grows with the square of the exponent, and other starts add at most
 the jumps it takes to get there. For less than 2^18 blocks back it is at most 110.
 */
module SkipBound {
  import opened Arith
  import opened SkipWalk

  // ---------------------------------------------------------------- aligned heights

  // From right below a multiple of 2^q, over two bits at a time.
  lemma {:induction false} DescendTo(q: nat, x: nat, t: nat, h: nat)
    requires Multiple(q, x) && x > 0 && t % 2 == 1 && t < q && Pow2(t) <= x && h <= x - Pow2(t) + 1
    ensures Steps(x - 1, h) == (t - 1) / 2 + Steps(x - Pow2(t) + 1, h)
    decreases t
  {
    hide Steps, NextHeight, Pow2, Multiple, LowBit, Cleared;
    if t == 1 {
      Pow2Next(0);
    } else {
      Pow2Next(t - 2);
      DescendTo(q, x, t - 2, h);
      ClearedBelow(q, x, t - 2);
      ClearedBelow(q, x, t - 1);
      EvenBelow(q, x, t - 2);
      var n := x - Pow2(t - 2) + 1;
      OddNext(n, h);
      TakeStep(n, h);
    }
  }

  lemma EvenBelow(q: nat, x: nat, t: nat)
    requires Multiple(q, x) && 0 < t < q && Pow2(t) < x
    ensures (x - Pow2(t)) % 2 == 0 && x - Pow2(t) >= 2
  {
    Pow2Next(t - 1);
  }

  // What it takes to get past the middle of level q.
  function Weight(q: nat): nat { (q + 3) / 2 }

  // Past the middle of an even level.
  lemma DropEven(q: nat, x: nat, h: nat)
    requires q >= 4 && q % 2 == 0 && Multiple(q, x) && x > 0 && x - Pow2(q) <= h < x - Pow2(q - 1)
    ensures Steps(x - 1, h) <= Weight(q) + Steps(x - Pow2(q - 1) - 1, h)
  {
    hide Steps, NextHeight, Pow2, Multiple, LowBit, Cleared;
    var t := q - 1;
    ClearedBelow(q, x, t);
    EvenBelow(q, x, t);
    DescendTo(q, x, t, h);
    var y, z := x - Pow2(t), x - Pow2(q);
    OddNext(y + 1, h);
    TakeStep(y + 1, h);
    if Cleared(z) + 1 >= h {
      ClearedAtMost(z);
      StepsAtMost(Cleared(z) + 1, h);
    } else {
      EvenNext(y, h);
      TakeStep(y, h);
      NoSteps(h);
    }
  }

  lemma ClearedAtMost(z: nat)
    ensures Cleared(z) <= z
  {
  }

  // Past the middle of an odd one.
  lemma DropOdd(q: nat, x: nat, h: nat)
    requires q >= 5 && q % 2 == 1 && Multiple(q, x) && x > 0 && x - Pow2(q) <= h < x - Pow2(q - 1)
    ensures Steps(x - 1, h) <= Weight(q) + Steps(x - Pow2(q - 1) - 1, h)
  {
    hide Steps, NextHeight, Pow2, Multiple, LowBit, Cleared;
    var t := q - 2;
    Pow2Next(t);
    ClearedBelow(q, x, t);
    ClearedBelow(q, x, t + 1);
    EvenBelow(q, x, t);
    DescendTo(q, x, t, h);
    var y, z, w := x - Pow2(t), x - Pow2(q - 1), x - Pow2(q);
    OddNext(y + 1, h);
    TakeStep(y + 1, h);
    if w + 1 >= h {
      StepsAtMost(w + 1, h);
    } else {
      EvenNext(y, h);
      TakeStep(y, h);
      EvenNext(z, h);
      TakeStep(z, h);
    }
  }

  lemma Drop(q: nat, x: nat, h: nat)
    requires q >= 4 && Multiple(q, x) && x > 0 && x - Pow2(q) <= h < x - Pow2(q - 1)
    ensures Steps(x - 1, h) <= Weight(q) + Steps(x - Pow2(q - 1) - 1, h)
  {
    hide Steps, Pow2, Multiple, Weight;
    if q % 2 == 0 {
      DropEven(q, x, h);
    } else {
      DropOdd(q, x, h);
    }
  }

  // The next level down starts right below another multiple.
  lemma HalfWay(q: nat, x: nat)
    requires q >= 1 && Multiple(q, x) && x > 0
    ensures Pow2(q - 1) < x && Multiple(q - 1, x - Pow2(q - 1)) && Multiple(q - 1, x) && Pow2(q) == 2 * Pow2(q - 1)
  {
    LowBitBelow(q, x, q - 1);
    LowBitMultiple(x - Pow2(q - 1));
    MultipleOfLess(q, q - 1, x);
  }

  // The number of steps below a multiple of 2^q.
  function Best(q: nat): nat {
    if q <= 3 then 4 else Best(q - 1) + Weight(q)
  }

  lemma {:induction false} BestGrows(p: nat, q: nat)
    requires p <= q
    ensures Best(p) <= Best(q)
    decreases q
  {
    if p < q {
      BestGrows(p, q - 1);
    }
  }

  // Below a multiple of eight.
  lemma EightSteps(x: nat, h: nat)
    requires Multiple(3, x) && x > 0 && x - 8 <= h < x
    ensures Steps(x - 1, h) <= 4
  {
    hide Steps, NextHeight, Multiple, LowBit, Cleared;
    assert Pow2(1) == 2 && Pow2(2) == 4 && Pow2(3) == 8;
    ClearedBelow(3, x, 1);
    ClearedBelow(3, x, 2);
    EvenBelow(3, x, 1);
    if h < x - 1 {
      OddNext(x - 1, h);
      TakeStep(x - 1, h);
      if x - 7 >= h {
        StepsAtMost(x - 7, h);
      } else if h < x - 2 {
        OvershotNext(x - 2, h);
        TakeStep(x - 2, h);
        if x - 4 >= h {
          StepsAtMost(x - 4, h);
        } else {
          StepsAtMost(x - 3, h);
        }
      } else {
        NoSteps(h);
      }
    } else {
      NoSteps(h);
    }
  }

  lemma {:induction false} AlignedSteps(q: nat, x: nat, h: nat)
    requires Multiple(q, x) && x > 0 && h < x && x - Pow2(q) <= h
    ensures Steps(x - 1, h) <= Best(q)
    decreases q
  {
    hide Steps, Multiple, Weight;
    if q < 3 {
      StepsAtMost(x - 1, h);
      assert Pow2(0) == 1 && Pow2(1) == 2 && Pow2(2) == 4;
    } else if q == 3 {
      assert Pow2(3) == 8;
      EightSteps(x, h);
    } else {
      HalfWay(q, x);
      if h < x - Pow2(q - 1) {
        Drop(q, x, h);
        AlignedSteps(q - 1, x - Pow2(q - 1), h);
      } else {
        AlignedSteps(q - 1, x, h);
      }
    }
  }

  // -------------------------------------------------------- after jumps over single bits

  // The number of steps below a multiple of 2^k and of the jumps over single bits before, for less
  // than 2^k blocks in all.
  function Most(k: nat): nat {
    if k <= 3 then 4 else Max(Most(k - 1) + Weight(k), Best(k - 1) + k - 4)
  }

  lemma {:induction false} MostAtLeast(k: nat)
    requires k >= 3
    ensures Most(k) >= k + 1
  {
    if k > 3 {
      MostAtLeast(k - 1);
    }
  }

  // m different bits from 2^3 on come to at least 2^(m + 3) - 8.
  lemma {:induction false} JumpCount(m: nat, b: nat, k: nat)
    requires Pow2(m + 3) - 8 <= b < Pow2(k) && k >= 3
    ensures m + 3 <= k
    ensures k > 3 && b < Pow2(k - 1) ==> m + 3 <= k - 1
  {
    assert Pow2(3) == 8;
    if m + 3 > k {
      Pow2Grows(k + 1, m + 3);
      Pow2Grows(3, k);
    }
    if k > 3 && b < Pow2(k - 1) && m + 3 > k - 1 {
      Pow2Grows(k, m + 3);
      Pow2Grows(3, k - 1);
    }
  }

  lemma {:induction false} AfterJumps(k: nat, x: nat, h: nat, b: nat, m: nat)
    requires k >= 3 && Multiple(k, x) && x > 0 && h < x && x - 1 - h + b < Pow2(k) && Pow2(m + 3) - 8 <= b
    ensures m + Steps(x - 1, h) <= Most(k)
    decreases k
  {
    hide Steps, Multiple, Weight, Best;
    JumpCount(m, b, k);
    if k == 3 {
      assert Pow2(3) == 8;
      EightSteps(x, h);
    } else {
      HalfWay(k, x);
      if h < x - Pow2(k - 1) {
        Drop(k, x, h);
        AfterJumps(k - 1, x - Pow2(k - 1), h, b, m);
      } else if m + 3 <= k - 1 {
        AlignedSteps(k - 1, x, h);
      } else {
        assert Pow2(3) == 8;
        MultipleOfLess(k, 3, x);
        EightSteps(x, h);
        MostAtLeast(k);
      }
    }
  }

  // From a multiple of eight: over single bits as long as possible, then right below.
  lemma {:induction false} EvenSteps(y: nat, h: nat, k: nat, b: nat, m: nat)
    requires k >= 3 && y > 0 && LowBit(y) >= m + 3 && h <= y && y - h + b < Pow2(k) && Pow2(m + 3) - 8 <= b
    ensures m + Steps(y, h) <= 1 + Most(k)
    decreases y
  {
    hide Steps, NextHeight, Pow2, Multiple, LowBit, Best, Most;
    NoSteps(h);
    MostAtLeast(k);
    JumpCount(m, b, k);
    if h < y {
      var t := LowBit(y);
      EvenNext(y, h);
      TakeStep(y, h);
      ClearedIs(y);
      if Cleared(y) < h {
        LowBitMultiple(y);
        LandedBelow(y, h, k, t, b, m);
      } else {
        Pow2Next(m + 3);
        Pow2Grows(m + 3, t);
        if Cleared(y) == 0 {
          JumpCount(m + 1, b + Pow2(t), k);
        } else {
          LowBitRises(y);
          EvenSteps(Cleared(y), h, k, b + Pow2(t), m + 1);
        }
      }
    }
  }

  lemma ClearedIs(y: nat)
    requires y > 0
    ensures Cleared(y) == y - Pow2(LowBit(y)) && Cleared(y) < y
  {
  }

  // The jump over the lowest bit t would go too far.
  lemma LandedBelow(y: nat, h: nat, k: nat, t: nat, b: nat, m: nat)
    requires k >= 3 && y > 0 && t >= m + 3 && Multiple(t, y) && y - Pow2(t) < h < y
    requires y - h + b < Pow2(k) && Pow2(m + 3) - 8 <= b
    ensures m + Steps(y - 1, h) <= Most(k)
  {
    hide Steps, Multiple, Best;
    if t >= k {
      MultipleOfLess(t, k, y);
      AfterJumps(k, y, h, b, m);
    } else {
      AlignedSteps(t, y, h);
      BestGrows(t, k - 1);
    }
  }

  // -------------------------------------------------------- after jumps over two bits

  lemma {:induction false} BestAtLeast(k: nat)
    ensures Best(k) >= k / 2 + 2
  {
    if k > 3 {
      BestAtLeast(k - 1);
    }
  }

  // p jumps over two different bits each, from 2^1 on, reach 2^(2 p).
  ghost predicate Doubled(p: nat, b: nat) {
    p == 0 || Pow2(2 * p) <= b
  }

  lemma DoubleCount(p: nat, b: nat, k: nat)
    requires Doubled(p, b) && b < Pow2(k)
    ensures p == 0 || 2 * p < k
  {
    if p > 0 && 2 * p >= k {
      Pow2Grows(k, 2 * p);
    }
  }

  lemma {:induction false} AfterDoubleJumps(k: nat, x: nat, h: nat, b: nat, p: nat)
    requires k >= 3 && Multiple(k, x) && x > 0 && h < x && x - 1 - h + b < Pow2(k) && Doubled(p, b)
    ensures p + Steps(x - 1, h) <= Best(k) + 1
    decreases k
  {
    hide Steps, Multiple, Doubled;
    DoubleCount(p, b, k);
    if k == 3 {
      assert Pow2(3) == 8;
      EightSteps(x, h);
    } else {
      HalfWay(k, x);
      if h < x - Pow2(k - 1) {
        Drop(k, x, h);
        AfterDoubleJumps(k - 1, x - Pow2(k - 1), h, b, p);
      } else {
        AlignedSteps(k - 1, x, h);
      }
    }
  }

  // The jump over the lowest bit t would go too far.
  lemma DoublyLanded(y: nat, h: nat, k: nat, t: nat, b: nat, p: nat)
    requires k >= 3 && y > 0 && t >= 2 * p + 1 && Multiple(t, y) && y - Pow2(t) < h < y
    requires y - h + b < Pow2(k) && Doubled(p, b)
    ensures p + Steps(y - 1, h) <= Best(k) + 1
  {
    hide Steps, Multiple, Doubled, Pow2;
    if t >= k {
      MultipleOfLess(t, k, y);
      AfterDoubleJumps(k, y, h, b, p);
    } else {
      AlignedSteps(t, y, h);
      BestGrows(t, k - 1);
    }
  }

  // At an even height from which two jumps would go too far.
  lemma OvershotSteps(y: nat, h: nat, k: nat, b: nat, p: nat)
    requires k >= 3 && y > 0 && y % 2 == 0 && LowBit(y) >= 2 * p + 1 && h <= y && y - h + b < Pow2(k) && Doubled(p, b)
    requires Cleared(Cleared(y)) + 1 < h
    ensures p + Steps(y, h) <= Best(k) + 3
  {
    hide Steps, NextHeight, Pow2, Multiple, LowBit, Best, Doubled, Cleared;
    NoSteps(h);
    DoubleCount(p, b, k);
    BestAtLeast(k);
    if h < y {
      var z := Cleared(y);
      OvershotNext(y, h);
      TakeStep(y, h);
      ClearedIs(y);
      if z < h {
        LowBitMultiple(y);
        DoublyLanded(y, h, k, LowBit(y), b, p);
      } else if h < z {
        LowBitOfEven(y);
        LowBitRises(y);
        ClearedIs(z);
        ClearedAtMost(Cleared(z));
        OvershotNext(z, h);
        TakeStep(z, h);
        LowBitMultiple(z);
        DoublyLanded(z, h, k, LowBit(z), b, p);
      }
    }
  }

  // From an odd height: over two bits at a time as long as possible.
  lemma {:induction false} OddSteps(n: nat, h: nat, k: nat, b: nat, p: nat)
    requires k >= 3 && n % 2 == 1 && n >= 3 && LowBit(n - 1) >= 2 * p + 1
    requires h <= n && n - h + b < Pow2(k) && Doubled(p, b)
    ensures p + Steps(n, h) <= Best(k) + 4
    decreases n
  {
    hide Steps, NextHeight, Pow2, Multiple, LowBit, Best, Doubled, Cleared;
    NoSteps(h);
    DoubleCount(p, b, k);
    BestAtLeast(k);
    if h < n {
      var y := n - 1;
      var r := Cleared(Cleared(y));
      OddNext(n, h);
      TakeStep(n, h);
      if r + 1 < h {
        OvershotSteps(y, h, k, b, p);
      } else if r == 0 {
        StepsAtMost(1, h);
      } else {
        TwoBits(y, p, b);
        OddSteps(r + 1, h, k, b + (y - r), p + 1);
      }
    }
  }

  // The two bits of a jump are above those of the jumps before.
  lemma TwoBits(y: nat, p: nat, b: nat)
    requires y > 0 && y % 2 == 0 && LowBit(y) >= 2 * p + 1 && Cleared(Cleared(y)) > 0
    ensures
      var r := Cleared(Cleared(y));
      r % 2 == 0 && r <= y && LowBit(r) >= 2 * (p + 1) + 1 && Doubled(p + 1, b + (y - r))
  {
    var z := Cleared(y);
    LowBitOfEven(y);
    ClearedAtMost(z);
    assert z > 0;
    LowBitOfEven(z);
    LowBitRises(y);
    LowBitRises(z);
    ClearedIs(y);
    ClearedIs(z);
    Pow2Grows(2 * (p + 1), LowBit(z));
    hide Pow2, LowBit, Cleared;
  }

  // -------------------------------------------------------------------- any two heights

  // At a height that is even but no multiple of eight a jump is taken only at the end.
  lemma LowNext(y: nat, h: nat)
    requires y > 0 && y % 2 == 0 && LowBit(y) <= 2 && h < y
    ensures NextHeight(y, h) == y - 1 || NextHeight(y, h) == Cleared(y)
    ensures NextHeight(y, h) == Cleared(y) && h < Cleared(y) ==> Cleared(Cleared(Cleared(y))) + 1 < h
  {
    var z := Cleared(y);
    LowBitOfEven(y);
    InvertLowestOneIs(y);
    if z > 0 {
      LowBitRises(y);
      LowSkip(y, z);
      ClearedFar(y, z);
      hide LowBit, Multiple, LowestOne, InvertLowestOne, And;
    }
  }

  lemma LowSkip(y: nat, z: nat)
    requires y > 0 && y % 2 == 0 && 1 <= LowBit(y) <= 2 && z == Cleared(y) > 0
    ensures GetSkipHeight(y) == z
    ensures GetSkipHeight(y - 1) == (if LowBit(y) == 1 then Cleared(Cleared(z)) else Cleared(z)) + 1
  {
    LowBitOfEven(y);
    EvenSkip(y);
    BelowFour(y);
    SkipOfOdd(y - 1);
    hide LowBit, Cleared, Multiple, GetSkipHeight;
  }

  lemma EvenSkip(y: nat)
    requires y >= 2 && y % 2 == 0
    ensures GetSkipHeight(y) == Cleared(y)
  {
    InvertLowestOneIs(y);
    hide InvertLowestOne, LowestOne;
  }

  // Two below a height that is even but no multiple of eight.
  lemma BelowFour(y: nat)
    requires y > 0 && y % 2 == 0 && 1 <= LowBit(y) <= 2 && Cleared(y) > 0
    ensures y >= 4
    ensures if LowBit(y) == 1 then Cleared(y) == y - 2 else Cleared(y) == y - 4 == Cleared(y - 2)
  {
    LowBitOfEven(y);
    ClearedIs(y);
    if LowBit(y) == 2 {
      Pow2Next(0);
      ClearedBelow(2, y, 1);
      Pow2Next(1);
    }
    hide LowBit, Cleared, Multiple;
  }

  lemma ClearedFar(y: nat, z: nat)
    requires y > 0 && y % 2 == 0 && 1 <= LowBit(y) <= 2 && z == Cleared(y) > 0
    ensures (if LowBit(y) == 1 then Cleared(Cleared(z)) else Cleared(z)) + 1 < z - 2
    ensures Cleared(Cleared(z)) <= Cleared(z)
  {
    LowBitRises(y);
    ClearedIs(z);
    ClearedAtMost(Cleared(z));
    assert Pow2(2) == 4 && Pow2(3) == 8;
    Pow2Grows(LowBit(y) + 1, LowBit(z));
    if Cleared(z) > 0 {
      LowBitRises(z);
      ClearedIs(Cleared(z));
      Pow2Grows(3, LowBit(Cleared(z)));
    }
  }

  lemma LowEvenSteps(y: nat, h: nat, k: nat)
    requires k >= 3 && y > 0 && y % 2 == 0 && LowBit(y) <= 2 && h <= y && y - h < Pow2(k)
    ensures Steps(y, h) <= Best(k) + 5
  {
    hide Steps, NextHeight, Pow2, Multiple, LowBit, Best, Cleared;
    NoSteps(h);
    if h < y {
      LowNext(y, h);
      TakeStep(y, h);
      var next := NextHeight(y, h);
      if next == y - 1 {
        OddStart(y - 1, h, k);
      } else if h < next {
        LowBitOfEven(y);
        LowBitOfEven(next);
        OvershotSteps(next, h, k, 0, 0);
      }
    }
  }

  lemma OddStart(n: nat, h: nat, k: nat)
    requires k >= 3 && n % 2 == 1 && h <= n && n - h < Pow2(k)
    ensures Steps(n, h) <= Best(k) + 4
  {
    hide Steps, Pow2, LowBit, Best;
    if n < 3 {
      StepsAtMost(n, h);
    } else {
      LowBitOfEven(n - 1);
      OddSteps(n, h, k, 0, 0);
    }
  }

  // The number of iterations for less than 2^k blocks back.
  function Limit(k: nat): nat {
    if k < 3 then Pow2(k) - 1 else Max(Most(k) + 1, Best(k) + 5)
  }

  // From any height.
  lemma StepsBound(n: nat, h: nat, k: nat)
    requires h <= n && n - h < Pow2(k)
    ensures Steps(n, h) <= Limit(k)
  {
    hide Steps, LowBit, Best, Most;
    if k < 3 || n == 0 {
      StepsAtMost(n, h);
    } else if n % 2 == 1 {
      OddStart(n, h, k);
    } else if LowBit(n) <= 2 {
      LowEvenSteps(n, h, k);
    } else {
      assert Pow2(0 + 3) == 8;
      EvenSteps(n, h, k, 0, 0);
    }
  }

  lemma SquareNext(k: int)
    ensures k * k == (k - 1) * (k - 1) + 2 * k - 1
  {
  }

  lemma WeightIs(k: nat)
    ensures 4 * Weight(k) == 2 * k + 4 + 2 * (k % 2)
  {
  }

  lemma {:induction false} BestIs(k: nat)
    requires k >= 3
    ensures 4 * Best(k) == k * k + 6 * k - 12 + k % 2
  {
    if k > 3 {
      BestIs(k - 1);
      SquareNext(k);
      WeightIs(k);
      hide Weight;
      var square, before := k * k, (k - 1) * (k - 1);
      assert 4 * Best(k) == before + 6 * (k - 1) - 12 + (k - 1) % 2 + 2 * k + 4 + 2 * (k % 2);
    }
  }

  lemma {:induction false} MostIs(k: nat)
    requires k >= 3
    ensures 4 * Most(k) <= k * k + 8 * k - 17
  {
    if k > 3 {
      MostIs(k - 1);
      BestIs(k - 1);
      SquareNext(k);
      WeightIs(k);
      hide Weight, Best;
    }
  }

  // The limit is a quarter of a square, and 110 for 2^18 blocks.
  lemma LimitIs(k: nat)
    ensures 4 * Limit(k) <= k * k + 8 * k + 3
    ensures k == 18 ==> Limit(k) == 110
  {
    if k < 3 {
      assert Pow2(0) == 1 && Pow2(1) == 2 && Pow2(2) == 4;
    } else {
      BestIs(k);
      MostIs(k);
    }
    if k == 18 {
      Eighteen();
    }
  }

  lemma Eighteen()
    ensures Best(18) == 105 && Most(18) == 109
  {
    assert Best(3) == 4 && Best(4) == 7 && Best(5) == 11 && Best(6) == 15;
    assert Best(7) == 20 && Best(8) == 25 && Best(9) == 31 && Best(10) == 37;
    assert Best(11) == 44 && Best(12) == 51 && Best(13) == 59 && Best(14) == 67;
    assert Best(15) == 76 && Best(16) == 85 && Best(17) == 95 && Best(18) == 105;
    assert Most(3) == 4 && Most(4) == 7 && Most(5) == 11 && Most(6) == 15;
    assert Most(7) == 20 && Most(8) == 25 && Most(9) == 31 && Most(10) == 37;
    assert Most(11) == 44 && Most(12) == 52 && Most(13) == 60 && Most(14) == 69;
    assert Most(15) == 78 && Most(16) == 88 && Most(17) == 98 && Most(18) == 109;
  }

  lemma StepsWithin(n: nat, h: nat)
    requires h <= n
    ensures n - h < 0x4_0000 ==> Steps(n, h) <= 110
  {
    hide Steps, Limit;
    LimitIs(18);
    Pow2Add(16, 2);
    Pow2Table();
    assert Pow2(2) == 4;
    if n - h < 0x4_0000 {
      StepsBound(n, h, 18);
    }
  }
}
