/**
 Skip heights and the walk along skip pointers (src/chain.cpp), on heights alone: which heights
 GetAncestor visits, and how many.
 */
module SkipWalk {
  import opened Arith

  // ------------------------------------------------------------------ skip heights

  // Bitwise and of two numbers.
  function And(a: nat, b: nat): nat {
    if a == 0 || b == 0 then 0
    else (if a % 2 == 1 && b % 2 == 1 then 1 else 0) + 2 * And(a / 2, b / 2)
  }

  // n & (n - 1)
  function InvertLowestOne(n: nat): nat {
    if n == 0 then 0 else And(n, n - 1)
  }

  // The lowest bit set in n.
  function LowestOne(n: nat): (p: nat)
    requires n > 0
    ensures 0 < p <= n
  {
    if n % 2 == 1 then 1 else 2 * LowestOne(n / 2)
  }

  lemma {:induction false} AndSelf(n: nat)
    ensures And(n, n) == n
  {
    if n > 0 {
      AndSelf(n / 2);
    }
  }

  lemma {:induction false} InvertLowestOneIs(n: nat)
    requires n > 0
    ensures InvertLowestOne(n) == n - LowestOne(n)
  {
    if n % 2 == 1 {
      AndSelf(n / 2);
    } else {
      InvertLowestOneIs(n / 2);
      assert (n - 1) / 2 == n / 2 - 1;
    }
  }

  function GetSkipHeight(height: nat): nat {
    if height < 2 then 0
    else if height % 2 == 1 then InvertLowestOne(InvertLowestOne(height - 1)) + 1
    else InvertLowestOne(height)
  }

  // A skip goes back.
  lemma SkipHeightBelow(height: nat)
    requires height > 0
    ensures GetSkipHeight(height) < height
  {
    if height >= 2 {
      if height % 2 == 1 {
        InvertLowestOneIs(height - 1);
        var m := InvertLowestOne(height - 1);
        if m > 0 {
          InvertLowestOneIs(m);
        }
      } else {
        InvertLowestOneIs(height);
      }
    }
  }

  // ---------------------------------------------------------------------- the walk

  // One iteration of the loop of GetAncestor: along pskip or along pprev.
  function NextHeight(n: nat, h: nat): (r: nat)
    requires h < n
    ensures h <= r < n
  {
    var skip := GetSkipHeight(n);
    var skipPrev := GetSkipHeight(n - 1);
    SkipHeightBelow(n);
    if skip == h || (skip > h && !(skipPrev < skip - 2 && skipPrev >= h)) then skip else n - 1
  }

  // The number of iterations from height n to height h.
  function Steps(n: nat, h: nat): nat
    requires h <= n
    decreases n
  {
    if h == n then 0 else 1 + Steps(NextHeight(n, h), h)
  }

  lemma {:induction false} StepsAtMost(n: nat, h: nat)
    requires h <= n
    ensures Steps(n, h) <= n - h
    decreases n
  {
    if h < n {
      StepsAtMost(NextHeight(n, h), h);
    }
  }

  // --------------------------------------------------------------- low bits of a number

  // x is a multiple of 2^q.
  predicate Multiple(q: nat, x: nat) {
    q == 0 || (x % 2 == 0 && Multiple(q - 1, x / 2))
  }

  lemma {:induction false} MultipleOfLess(q: nat, p: nat, x: nat)
    requires Multiple(q, x) && p <= q
    ensures Multiple(p, x)
    decreases q
  {
    if p > 0 {
      MultipleOfLess(q - 1, p - 1, x / 2);
    }
  }

  // The exponent of the lowest bit set.
  function LowBit(y: nat): (t: nat)
    requires y > 0
    ensures Pow2(t) == LowestOne(y) && Multiple(t, y)
  {
    if y % 2 == 1 then 0 else LowBit(y / 2) + 1
  }

  lemma {:induction false} LowBitOfMultiple(q: nat, x: nat)
    requires Multiple(q, x) && x > 0
    ensures LowBit(x) >= q && x >= Pow2(q)
    decreases q
  {
    if q > 0 {
      LowBitOfMultiple(q - 1, x / 2);
    }
  }

  // Below a multiple of 2^q.
  lemma {:induction false} LowBitBelow(q: nat, x: nat, t: nat)
    requires Multiple(q, x) && x > 0 && t < q
    ensures Pow2(t) < x && LowBit(x - Pow2(t)) == t
    decreases t
  {
    if t > 0 {
      LowBitBelow(q - 1, x / 2, t - 1);
      assert x - Pow2(t) == 2 * (x / 2 - Pow2(t - 1));
    }
  }

  // Clearing the lowest bit.
  lemma {:induction false} LowBitCleared(y: nat)
    requires y > 0
    ensures Pow2(LowBit(y)) <= y && Multiple(LowBit(y) + 1, y - Pow2(LowBit(y)))
  {
    if y % 2 == 0 {
      LowBitCleared(y / 2);
      assert (y - Pow2(LowBit(y))) / 2 == y / 2 - Pow2(LowBit(y / 2));
    }
  }

  // y without its lowest bit.
  function Cleared(y: nat): (r: nat)
    ensures y > 0 ==> r < y
  {
    if y == 0 then 0 else y - LowestOne(y)
  }

  lemma SkipOfOdd(n: nat)
    requires n % 2 == 1 && n >= 3
    ensures GetSkipHeight(n) == Cleared(Cleared(n - 1)) + 1 && GetSkipHeight(n - 1) == Cleared(n - 1)
  {
    InvertLowestOneIs(n - 1);
    if Cleared(n - 1) > 0 {
      InvertLowestOneIs(Cleared(n - 1));
    }
  }

  // At an odd height the skip is taken unless it goes too far.
  lemma OddNext(n: nat, h: nat)
    requires n % 2 == 1 && n >= 3 && h < n
    ensures NextHeight(n, h) == if Cleared(Cleared(n - 1)) + 1 >= h then Cleared(Cleared(n - 1)) + 1 else n - 1
  {
    SkipOfOdd(n);
  }

  // At a multiple of eight as well.
  lemma EvenNext(y: nat, h: nat)
    requires y > 0 && LowBit(y) >= 3 && h < y
    ensures NextHeight(y, h) == if Cleared(y) >= h then Cleared(y) else y - 1
  {
    BelowEight(y);
    InvertLowestOneIs(y);
    SkipOfOdd(y - 1);
    hide LowBit, Multiple, LowestOne, InvertLowestOne;
  }

  // Right below a multiple of eight.
  lemma BelowEight(y: nat)
    requires y > 0 && LowBit(y) >= 3
    ensures y >= 8 && y % 2 == 0 && Cleared(y) <= y - 8 && Cleared(y - 2) == y - 4 && Cleared(y - 4) == y - 8
  {
    var t := LowBit(y);
    LowBitBelow(t, y, 1);
    LowBitBelow(t, y, 2);
    LowBitOfMultiple(t, y);
    Pow2Grows(3, t);
    assert Pow2(1) == 2 && Pow2(2) == 4 && Pow2(3) == 8;
    hide Pow2, LowBit;
    assert y % 2 == 0;
  }

  lemma TakeStep(n: nat, h: nat)
    requires h < n
    ensures Steps(n, h) == 1 + Steps(NextHeight(n, h), h)
  {
  }

  lemma Pow2Next(t: nat)
    ensures Pow2(t + 1) == 2 * Pow2(t) && Pow2(t + 2) == 4 * Pow2(t) && (t == 0 ==> Pow2(t) == 1)
  {
  }

  // Below a multiple of 2^q, clearing the lowest bit goes back by as much again.
  lemma ClearedBelow(q: nat, x: nat, t: nat)
    requires Multiple(q, x) && x > 0 && t < q
    ensures Pow2(t + 1) <= x && 0 < x - Pow2(t) && LowBit(x - Pow2(t)) == t
    ensures Cleared(x - Pow2(t)) == x - Pow2(t + 1)
  {
    LowBitBelow(q, x, t);
    LowBitCleared(x - Pow2(t));
    Pow2Next(t);
  }

  lemma NoSteps(h: nat)
    ensures Steps(h, h) == 0
  {
  }

  lemma LowBitMultiple(y: nat)
    requires y > 0
    ensures Multiple(LowBit(y), y)
  {
  }

  lemma LowBitRises(y: nat)
    requires y > 0 && Cleared(y) > 0
    ensures LowBit(Cleared(y)) > LowBit(y)
  {
    LowBitCleared(y);
    LowBitOfMultiple(LowBit(y) + 1, Cleared(y));
  }

  lemma LowBitOfEven(y: nat)
    requires y > 0 && y % 2 == 0
    ensures LowBit(y) >= 1 && Pow2(LowBit(y)) >= 2 && (LowBit(y) == 1 ==> Pow2(LowBit(y)) == 2) && y >= 2
    ensures LowBit(y) == 2 ==> Pow2(LowBit(y)) == 4
    ensures Cleared(y) % 2 == 0
  {
    LowBitCleared(y);
    Pow2Next(0);
    Pow2Next(LowBit(y) - 1);
  }

  // At any even height, if skipping from the one below goes too far.
  lemma OvershotNext(y: nat, h: nat)
    requires y > 0 && y % 2 == 0 && h < y && Cleared(Cleared(y)) + 1 < h
    ensures NextHeight(y, h) == if Cleared(y) >= h then Cleared(y) else y - 1
  {
    if LowBit(y) >= 3 {
      EvenNext(y, h);
    } else {
      LowBitOfEven(y);
      InvertLowestOneIs(y);
      SkipOfOdd(y - 1);
      if LowBit(y) == 2 {
        LowBitBelow(2, y, 1);
        assert Cleared(y - 2) == y - 4;
      }
    }
  }
}
