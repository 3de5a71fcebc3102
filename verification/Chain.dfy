/**
 The block index and the active chain (src/chain.cpp, src/chain.h): ancestors by skip
 pointers, the chain of a tip, forks and locators. The reference is the plain walk along
 pprev.
 */
module Chain {
  import opened Arith
  import opened SkipWalk
  import opened SkipBound

  // -------------------------------------------------------------------- the blocks

  class BlockIndex {
    const nHeight: nat
    const pprev: BlockIndex?
    var pskip: BlockIndex?

    constructor (prev: BlockIndex?)
      ensures pprev == prev && nHeight == (if prev == null then 0 else prev.nHeight + 1) && pskip == null
    {
      pprev := prev;
      nHeight := if prev == null then 0 else prev.nHeight + 1;
      pskip := null;
    }

    // Heights go down by one to a block without a predecessor at height zero.
    ghost predicate Rooted()
      decreases nHeight
    {
      if pprev == null then nHeight == 0 else nHeight == pprev.nHeight + 1 && pprev.Rooted()
    }

    // The reference: walking back to a height.
    ghost function Walk(h: nat): (a: BlockIndex)
      requires Rooted() && h <= nHeight
      ensures a.Rooted() && a.nHeight == h
      decreases nHeight
    {
      if h == nHeight then this else pprev.Walk(h)
    }

    // The block and its ancestors.
    ghost function Line(): (s: set<BlockIndex>)
      requires Rooted()
      ensures this in s && forall b | b in s :: b.nHeight <= nHeight
      decreases nHeight
    {
      {this} + (if pprev == null then {} else pprev.Line())
    }

    // Every skip pointer of the line is the ancestor at the skip height.
    ghost predicate Built()
      requires Rooted()
      reads Line()
      decreases nHeight
    {
      pprev != null ==>
        && GetSkipHeight(nHeight) <= pprev.nHeight
        && pskip == pprev.Walk(GetSkipHeight(nHeight))
        && pprev.Built()
    }

    // The fast form: null for a height that does not exist, else the same block as the walk.
    method GetAncestor(height: int) returns (r: BlockIndex?)
      requires Rooted() && Built()
      ensures height < 0 || height > nHeight ==> r == null
      ensures 0 <= height <= nHeight ==> r == Walk(height)
    {
      if height > nHeight || height < 0 {
        return null;
      }
      ghost var steps;
      r, steps := WalkBack(height);
    }

    // The loop of GetAncestor and the number of its iterations.
    method WalkBack(height: nat) returns (walk: BlockIndex, ghost steps: nat)
      requires Rooted() && Built() && height <= nHeight
      ensures walk == Walk(height)
      ensures forall k: nat | nHeight - height < Pow2(k) :: steps <= Limit(k)
      ensures nHeight - height < 0x4_0000 ==> steps <= 110
    {
      hide Limit;
      walk, steps := this, 0;
      var heightWalk := nHeight;
      while heightWalk > height
        invariant walk.Rooted() && walk.Built() && heightWalk == walk.nHeight >= height
        invariant walk.Walk(height) == Walk(height)
        invariant steps + Steps(heightWalk, height) == Steps(nHeight, height)
        decreases heightWalk
      {
        var heightSkip := GetSkipHeight(heightWalk);
        var heightSkipPrev := GetSkipHeight(heightWalk - 1);
        SkipHeightBelow(heightWalk);
        steps := steps + 1;
        if heightSkip == height
           || (heightSkip > height && !(heightSkipPrev < heightSkip - 2 && heightSkipPrev >= height)) {
          BuiltBelow(walk.pprev, heightSkip);
          WalkAgain(walk.pprev, heightSkip, height);
          walk := walk.pskip;
          heightWalk := heightSkip;
        } else {
          walk := walk.pprev;
          heightWalk := heightWalk - 1;
        }
      }
      forall k: nat | nHeight - height < Pow2(k)
        ensures steps <= Limit(k)
      {
        StepsBound(nHeight, height, k);
      }
      StepsWithin(nHeight, height);
    }

    method BuildSkip()
      requires Rooted() && (pprev != null ==> pprev.Built())
      modifies this`pskip
      ensures Built()
      ensures pprev == null ==> pskip == old(pskip)
    {
      if pprev != null {
        SkipHeightBelow(nHeight);
        var skip := pprev.GetAncestor(GetSkipHeight(nHeight));
        assert forall b | b in pprev.Line() :: b != this;
        pskip := skip;
        BuiltStays(pprev);
      }
    }
  }

  // Being built depends on the line only.
  twostate lemma BuiltStays(b: BlockIndex)
    requires b.Rooted() && old(b.Built())
    requires forall c | c in b.Line() && old(allocated(c)) :: c.pskip == old(c.pskip)
    ensures b.Built()
    decreases b.nHeight
  {
    if b.pprev != null {
      BuiltStays(b.pprev);
    }
  }

  lemma WalkPrev(b: BlockIndex)
    requires b.Rooted() && b.pprev != null
    ensures b.Walk(b.nHeight - 1) == b.pprev
  {
    assert b.pprev.Walk(b.nHeight - 1) == b.pprev;
  }

  // Walking in two stages.
  lemma {:induction false} WalkAgain(b: BlockIndex, h: nat, g: nat)
    requires b.Rooted() && g <= h <= b.nHeight
    ensures b.Walk(h).Walk(g) == b.Walk(g)
    decreases b.nHeight
  {
    if h < b.nHeight {
      WalkAgain(b.pprev, h, g);
    }
  }

  lemma {:induction false} BuiltBelow(b: BlockIndex, h: nat)
    requires b.Rooted() && b.Built() && h <= b.nHeight
    ensures b.Walk(h).Built()
    decreases b.nHeight
  {
    if h < b.nHeight {
      BuiltBelow(b.pprev, h);
    }
  }

  lemma {:induction false} LineIs(b: BlockIndex, a: BlockIndex)
    requires b.Rooted()
    ensures a in b.Line() <==> a.nHeight <= b.nHeight && b.Walk(a.nHeight) == a
    decreases b.nHeight
  {
    if b.pprev != null && a != b {
      LineIs(b.pprev, a);
    }
  }

  // ---------------------------------------------------------------------- the tree

  // A set of blocks, closed under predecessors, all built.
  ghost predicate Tree(blocks: set<BlockIndex>)
    reads blocks
  {
    && (forall b | b in blocks :: b.Rooted() && b.Line() <= blocks)
    && (forall b | b in blocks :: b.Built())
  }

  // mapBlockIndex holds a tree of blocks.
  ghost predicate Indexed(index: map<nat, BlockIndex>)
    reads index.Values
  {
    Tree(index.Values)
  }

  // A block with a known hash is found again; another one is linked to the block its header
  // names, if that is known, and every block stays built.
  method AddToBlockIndex(index: map<nat, BlockIndex>, hash: nat, hashPrev: nat)
    returns (b: BlockIndex, next: map<nat, BlockIndex>)
    requires Indexed(index)
    ensures hash in index ==> b == index[hash] && next == index
    ensures hash !in index ==>
      && fresh(b) && next == index[hash := b]
      && b.pprev == (if hashPrev in index then index[hashPrev] else null)
    ensures Indexed(next)
  {
    if hash in index {
      return index[hash], index;
    }
    var prev := if hashPrev in index then index[hashPrev] else null;
    b := new BlockIndex(prev);
    assert prev != null ==> prev in index.Values && prev.Built();
    b.BuildSkip();
    next := index[hash := b];
    IndexGrows(index, hash, b);
    forall c | c in index.Values
      ensures c.Built()
    {
      assert c.Line() <= index.Values;
    }
  }

  lemma IndexGrows(index: map<nat, BlockIndex>, hash: nat, b: BlockIndex)
    requires hash !in index
    ensures index[hash := b].Values == index.Values + {b}
  {
    var next := index[hash := b];
    forall c | c in index.Values
      ensures c in next.Values
    {
      var k :| k in index && index[k] == c;
      assert next[k] == c;
    }
    assert next[hash] == b;
  }

  // ------------------------------------------------------------- common ancestors

  // a is b or one of its ancestors.
  ghost predicate IsAncestor(a: BlockIndex, b: BlockIndex)
    requires b.Rooted()
  {
    a.nHeight <= b.nHeight && b.Walk(a.nHeight) == a
  }

  // r is the highest block on both lines, or null if they have none in common.
  ghost predicate IsLastCommon(a: BlockIndex, b: BlockIndex, r: BlockIndex?)
    requires a.Rooted() && b.Rooted()
  {
    if r == null then a.Line() !! b.Line()
    else IsAncestor(r, a) && IsAncestor(r, b) && forall c | c in a.Line() && c in b.Line() :: c.nHeight <= r.nHeight
  }

  lemma LastCommonUnique(a: BlockIndex, b: BlockIndex, r: BlockIndex?, s: BlockIndex?)
    requires a.Rooted() && b.Rooted() && IsLastCommon(a, b, r) && IsLastCommon(a, b, s)
    ensures r == s
  {
    if r != null {
      LineIs(a, r);
      LineIs(b, r);
    }
    if s != null {
      LineIs(a, s);
      LineIs(b, s);
    }
  }

  // With one genesis there is always a common ancestor.
  lemma GenesisIsCommon(a: BlockIndex, b: BlockIndex, r: BlockIndex?)
    requires a.Rooted() && b.Rooted() && a.Walk(0) == b.Walk(0) && IsLastCommon(a, b, r)
    ensures r != null
  {
    WalkAgain(a, 0, 0);
    LineIs(a, a.Walk(0));
    LineIs(b, b.Walk(0));
  }

  // The common blocks of two lines are those of the lines cut at a height above which nothing is common.
  lemma CutLine(a: BlockIndex, b: BlockIndex, h: nat, r: BlockIndex?)
    requires a.Rooted() && b.Rooted() && h <= a.nHeight
    requires forall c | c in a.Line() && c in b.Line() :: c.nHeight <= h
    requires IsLastCommon(a.Walk(h), b, r)
    ensures IsLastCommon(a, b, r)
  {
    var w := a.Walk(h);
    forall c | c in a.Line() && c in b.Line()
      ensures c in w.Line()
    {
      LineIs(a, c);
      WalkAgain(a, h, c.nHeight);
      LineIs(w, c);
    }
    if r != null {
      WalkAgain(a, h, r.nHeight);
    }
  }

  lemma LastCommonSwaps(a: BlockIndex, b: BlockIndex, r: BlockIndex?)
    requires a.Rooted() && b.Rooted() && IsLastCommon(a, b, r)
    ensures IsLastCommon(b, a, r)
  {
  }

  lemma BelowOther(a: BlockIndex, b: BlockIndex)
    requires a.Rooted() && b.Rooted()
    ensures forall c | c in a.Line() && c in b.Line() :: c.nHeight <= b.nHeight
  {
  }

  // Neither of two different blocks of one height is on the other's line.
  lemma NotCommon(a: BlockIndex, b: BlockIndex)
    requires a.Rooted() && b.Rooted() && a.nHeight == b.nHeight && a != b
    ensures forall c | c in a.Line() && c in b.Line() :: c.nHeight < a.nHeight
  {
    forall c | c in a.Line() && c in b.Line()
      ensures c.nHeight < a.nHeight
    {
      LineIs(a, c);
      LineIs(b, c);
    }
  }

  // What is left of the search at one height decides the search at the next higher one.
  lemma StepDown(a: BlockIndex, b: BlockIndex, r: BlockIndex?)
    requires a.Rooted() && b.Rooted() && a.nHeight == b.nHeight && a != b
    requires a.pprev != null ==> IsLastCommon(a.pprev, b.pprev, r)
    requires a.pprev == null ==> r == null
    ensures IsLastCommon(a, b, r)
  {
    NotCommon(a, b);
    if a.pprev == null {
      assert a.Line() == {a} && b.Line() == {b};
    } else {
      var h := a.nHeight - 1;
      WalkPrev(a);
      WalkPrev(b);
      forall c | c in a.pprev.Line() && c in b.Line()
        ensures c.nHeight <= h
      {
        assert c in a.Line();
      }
      LastCommonSwaps(a.pprev, b.pprev, r);
      CutLine(b, a.pprev, h, r);
      LastCommonSwaps(b, a.pprev, r);
      CutLine(a, b, h, r);
    }
  }

  // The last common block of two blocks of one height, by walking both back.
  ghost function Meet(a: BlockIndex, b: BlockIndex): (r: BlockIndex?)
    requires a.Rooted() && b.Rooted() && a.nHeight == b.nHeight
    decreases a.nHeight
  {
    if a == b then a else if a.pprev == null then null else Meet(a.pprev, b.pprev)
  }

  lemma {:induction false} MeetIsLastCommon(a: BlockIndex, b: BlockIndex)
    requires a.Rooted() && b.Rooted() && a.nHeight == b.nHeight
    ensures IsLastCommon(a, b, Meet(a, b))
    decreases a.nHeight
  {
    if a != b {
      if a.pprev != null {
        MeetIsLastCommon(a.pprev, b.pprev);
      }
      StepDown(a, b, Meet(a, b));
    }
  }

  // The assertion after the loop holds whether or not the blocks share a genesis.
  method LastCommonAncestor(a: BlockIndex, b: BlockIndex) returns (r: BlockIndex?)
    requires a.Rooted() && b.Rooted() && a.Built() && b.Built()
    ensures IsLastCommon(a, b, r)
  {
    var pa: BlockIndex?, pb: BlockIndex? := a, b;
    if pa.nHeight > pb.nHeight {
      pa := pa.GetAncestor(pb.nHeight);
    } else if pb.nHeight > pa.nHeight {
      pb := pb.GetAncestor(pa.nHeight);
    }
    ghost var x, y := pa, pb;
    while pa != pb && pa != null && pb != null
      invariant pa == null <==> pb == null
      invariant pa != null ==> pa.Rooted() && pb.Rooted() && pa.nHeight == pb.nHeight && Meet(pa, pb) == Meet(x, y)
      invariant pa == null ==> Meet(x, y) == null
      decreases if pa == null then 0 else pa.nHeight + 1
    {
      pa := pa.pprev;
      pb := pb.pprev;
    }
    assert pa == pb;
    r := pa;
    MeetIsLastCommon(x, y);
    BelowOther(a, b);
    BelowOther(b, a);
    if a.nHeight > b.nHeight {
      CutLine(a, b, b.nHeight, r);
    } else if b.nHeight > a.nHeight {
      LastCommonSwaps(x, y, r);
      CutLine(b, a, a.nHeight, r);
      LastCommonSwaps(b, a, r);
    }
  }

  // --------------------------------------------------------------- the active chain

  // The blocks of a chain are the line of its tip, by height.
  ghost predicate IsLineOf(chain: seq<BlockIndex?>, tip: BlockIndex) {
    && tip.Rooted() && |chain| == tip.nHeight + 1
    && forall h | 0 <= h < |chain| :: chain[h] == tip.Walk(h)
  }

  class ActiveChain {
    var vChain: seq<BlockIndex?>

    ghost predicate Valid()
      reads this
    {
      vChain != [] ==> vChain[|vChain| - 1] != null && IsLineOf(vChain, vChain[|vChain| - 1])
    }

    constructor ()
      ensures Valid() && vChain == []
    {
      vChain := [];
    }

    function Height(): int
      reads this
    {
      |vChain| - 1
    }

    function Tip(): (t: BlockIndex?)
      reads this
    {
      if |vChain| < 1 then null else vChain[|vChain| - 1]
    }

    function At(nHeight: int): BlockIndex?
      reads this
    {
      if nHeight < 0 || nHeight >= |vChain| then null else vChain[nHeight]
    }

    // The block is on the line of the tip.
    predicate Contains(b: BlockIndex)
      requires Valid()
      reads this
      ensures Contains(b) <==> Tip() != null && IsAncestor(b, Tip())
    {
      At(b.nHeight) == b
    }

    // The block above, if there is one in the chain.
    function Next(b: BlockIndex): (n: BlockIndex?)
      requires Valid()
      reads this
      ensures n != null <==> Contains(b) && b != Tip()
      ensures n != null ==> Contains(n) && n.pprev == b
    {
      if Contains(b) then
        NextLinks(b);
        At(b.nHeight + 1)
      else null
    }

    lemma NextLinks(b: BlockIndex)
      requires Valid() && Contains(b)
      ensures b.nHeight + 1 < |vChain| ==> vChain[b.nHeight + 1] != null && vChain[b.nHeight + 1].pprev == b
      ensures b.nHeight + 1 < |vChain| ==> vChain[b.nHeight + 1].nHeight == b.nHeight + 1
      ensures b == Tip() <==> b.nHeight + 1 == |vChain|
    {
      if b.nHeight + 1 < |vChain| {
        var c := vChain[b.nHeight + 1];
        WalkAgain(Tip(), b.nHeight + 1, b.nHeight);
        assert c.Walk(b.nHeight) == c.pprev;
      }
    }

    // The early stop leaves the whole line of the new tip.
    method SetTip(tip: BlockIndex?)
      requires Valid() && (tip != null ==> tip.Rooted())
      modifies this
      ensures Valid() && Tip() == tip
      ensures tip == null ==> vChain == []
      ensures tip != null ==> IsLineOf(vChain, tip)
    {
      if tip == null {
        vChain := [];
        return;
      }
      ghost var was, oldTip := vChain, Tip();
      var size := tip.nHeight + 1;
      vChain := if size <= |vChain| then vChain[..size] else vChain + seq(size - |vChain|, _ => null);
      var p: BlockIndex? := tip;
      while p != null && vChain[p.nHeight] != p
        invariant |vChain| == size
        invariant p != null ==> p.Rooted() && p.nHeight < size && tip.Walk(p.nHeight) == p
        invariant forall h | (if p == null then 0 else p.nHeight + 1) <= h < size :: vChain[h] == tip.Walk(h)
        invariant p != null ==>
          forall h | 0 <= h <= p.nHeight :: vChain[h] == if h < |was| then was[h] else null
        decreases if p == null then 0 else p.nHeight + 1
      {
        vChain := vChain[p.nHeight := p];
        if p.pprev != null {
          WalkAgain(tip, p.nHeight, p.nHeight - 1);
          assert p.Walk(p.nHeight - 1) == p.pprev;
        }
        p := p.pprev;
      }
      if p != null {
        forall h | 0 <= h <= p.nHeight
          ensures vChain[h] == tip.Walk(h)
        {
          WalkAgain(oldTip, p.nHeight, h);
          WalkAgain(tip, p.nHeight, h);
        }
      }
    }

    // The last block of the chain on the line of p.
    method FindFork(p: BlockIndex?) returns (r: BlockIndex?)
      requires Valid() && (p != null ==> p.Rooted() && p.Built())
      ensures p == null || Tip() == null ==> r == null
      ensures p != null && Tip() != null ==> IsLastCommon(p, Tip(), r)
    {
      if p == null {
        return null;
      }
      r := p;
      if r.nHeight > Height() {
        r := r.GetAncestor(Height());
      }
      ghost var start, tip := r, Tip();
      while r != null && !Contains(r)
        invariant r != null ==> r.Rooted() && tip != null && r.nHeight <= tip.nHeight
        invariant r != null ==> Meet(r, tip.Walk(r.nHeight)) == Meet(start, tip.Walk(start.nHeight))
        invariant r == null && tip != null ==> Meet(start, tip.Walk(start.nHeight)) == null
        decreases if r == null then 0 else r.nHeight + 1
      {
        if r.pprev != null {
          WalkAgain(tip, r.nHeight, r.nHeight - 1);
          WalkPrev(tip.Walk(r.nHeight));
        }
        r := r.pprev;
      }
      if tip != null {
        ForkIsLastCommon(p, tip, start, r);
      }
    }
  }

  // The search may start at the lower of the two heights.
  lemma ForkIsLastCommon(p: BlockIndex, tip: BlockIndex, start: BlockIndex, r: BlockIndex?)
    requires p.Rooted() && tip.Rooted()
    requires start.nHeight == Min(p.nHeight, tip.nHeight) && start == p.Walk(start.nHeight)
    requires r == Meet(start, tip.Walk(start.nHeight))
    ensures IsLastCommon(p, tip, r)
  {
    var h := start.nHeight;
    BelowOther(p, tip);
    BelowOther(tip, p);
    MeetIsLastCommon(start, tip.Walk(h));
    LastCommonSwaps(start, tip.Walk(h), r);
    BelowOther(tip, start);
    CutLine(tip, start, h, r);
    LastCommonSwaps(tip, start, r);
    CutLine(p, tip, h, r);
  }

  // Both searches find the same block.
  method FindForkIsLastCommonAncestor(chain: ActiveChain, p: BlockIndex) returns (fork: BlockIndex?, common: BlockIndex?)
    requires chain.Valid() && p.Rooted() && p.Built()
    requires chain.Tip() != null && chain.Tip().Rooted() && chain.Tip().Built()
    ensures fork == common
  {
    fork := chain.FindFork(p);
    BuiltStays(p);
    BuiltStays(chain.Tip());
    common := LastCommonAncestor(p, chain.Tip());
    LastCommonUnique(p, chain.Tip(), fork, common);
  }

  // ------------------------------------------------------------------------ locators

  // The step back after the n-th entry.
  function StepAfter(n: nat): (step: nat)
    ensures step > 0
  {
    if n < 10 then 1 else Pow2(n - 10)
  }

  // The heights of a locator from height h on, n entries being there already.
  function Heights(h: nat, n: nat): (s: seq<nat>)
    ensures s != [] && s[0] == h && s[|s| - 1] == 0
    ensures forall i | 0 <= i < |s| :: s[i] <= h
    decreases h
  {
    if h == 0 then [0]
    else
      var rest := Heights(Max(h - StepAfter(n), 0), n + 1);
      assert forall i | 0 < i < |rest| + 1 :: ([h] + rest)[i] == rest[i - 1];
      [h] + rest
  }

  lemma {:induction false} HeightsAt(h: nat, n: nat, i: nat)
    requires i + 1 < |Heights(h, n)|
    ensures Heights(h, n)[i] > 0 && Heights(h, n)[i + 1] == Max(Heights(h, n)[i] - StepAfter(n + i), 0)
    decreases i
  {
    HeightsNext(h, n);
    var s := Heights(h, n);
    hide Heights, StepAfter;
    assert s[i + 1] == s[1..][i];
    if i > 0 {
      assert s[i] == s[1..][i - 1];
      HeightsAt(Max(h - StepAfter(n), 0), n + 1, i - 1);
    }
  }

  lemma StepDoubles(n: nat)
    requires n >= 10
    ensures StepAfter(n + 1) == 2 * StepAfter(n)
  {
  }

  // The first twelve entries are consecutive; every later step back is twice the one before, and
  // only the last can be cut short, at the genesis block.
  lemma LocatorSteps(h: nat, i: nat)
    requires i + 1 < |Heights(h, 0)|
    ensures
      var s := Heights(h, 0);
      && s[i] > s[i + 1]
      && (i < 11 ==> s[i] - s[i + 1] == 1)
      && (i >= 11 ==> s[i - 1] > s[i])
      && (i >= 11 && s[i + 1] > 0 ==> s[i] - s[i + 1] == 2 * (s[i - 1] - s[i]))
      && (i >= 11 && s[i + 1] == 0 ==> s[i] <= 2 * (s[i - 1] - s[i]))
  {
    hide Heights;
    HeightsAt(h, 0, i);
    if i >= 11 {
      HeightsAt(h, 0, i - 1);
      StepDoubles(i - 1);
    }
  }

  // A locator is short: ten entries, and one for every doubling of the height.
  lemma {:induction false} HeightsShort(h: nat, n: nat, j: nat)
    requires n >= 10 && h <= Pow2(n - 10) * (Pow2(j) - 1)
    ensures |Heights(h, n)| <= j + 1
    decreases j
  {
    if h > 0 && j > 0 {
      var p, q := Pow2(n - 10), Pow2(j - 1);
      assert p * (2 * q - 1) - p == 2 * p * (q - 1);
      assert 0 <= 2 * p * (q - 1);
      HeightsShort(Max(h - p, 0), n + 1, j - 1);
    }
  }

  lemma {:induction false} LocatorIsShort(h: nat, n: nat, k: nat)
    requires n <= 10 && h < Pow2(k)
    ensures |Heights(h, n)| <= (10 - n) + k + 1
    decreases 10 - n
  {
    if n == 10 {
      HeightsShort(h, 10, k);
    } else if h > 0 {
      LocatorIsShort(Max(h - 1, 0), n + 1, k);
    }
  }

  // From a block, by default the tip, back to the genesis block in ever larger steps.
  method GetLocator(chain: ActiveChain, from: BlockIndex?) returns (have: seq<BlockIndex>)
    requires chain.Valid() && (from != null ==> from.Rooted() && from.Built())
    ensures from == null && chain.Tip() == null ==> have == []
    ensures
      var start := if from == null then chain.Tip() else from;
      start != null ==>
        && |have| == |Heights(start.nHeight, 0)|
        && forall i | 0 <= i < |have| :: have[i] == start.Walk(Heights(start.nHeight, 0)[i])
  {
    var p := from;
    if p == null {
      p := chain.Tip();
    }
    have := [];
    if p != null {
      have := Locate(chain, p);
    }
  }

  // The loop of GetLocator; it ends at the genesis block, never with a missing one.
  method Locate(chain: ActiveChain, start: BlockIndex) returns (have: seq<BlockIndex>)
    requires chain.Valid() && start.Rooted() && (start.Built() || start == chain.Tip())
    ensures Listed(start, have, [])
  {
    have := [];
    var p, nStep := start, 1;
    assert Heights(start.nHeight, 0)[0..] == Heights(start.nHeight, 0);
    while true
      invariant p.nHeight <= start.nHeight && start.Walk(p.nHeight) == p && nStep == StepAfter(|have|)
      invariant start.Built() || start == chain.Tip()
      invariant Listed(start, have, Heights(p.nHeight, |have|))
      decreases p.nHeight
    {
      HeightsNext(p.nHeight, |have|);
      ListedNext(start, have, Heights(p.nHeight, |have|));
      hide Heights, StepAfter, Listed;
      have := have + [p];
      if p.nHeight == 0 {
        break;
      }
      p := StepBack(chain, start, p, nStep);
      if start != chain.Tip() {
        BuiltStays(start);
      }
      if |have| > 10 {
        nStep := nStep * 2;
      }
    }
  }

  // The ancestor nStep blocks back, by the chain's index if it has the block.
  method StepBack(chain: ActiveChain, ghost start: BlockIndex, p: BlockIndex, nStep: nat) returns (r: BlockIndex)
    requires chain.Valid() && start.Rooted() && p.nHeight <= start.nHeight && start.Walk(p.nHeight) == p
    requires start.Built() || start == chain.Tip()
    ensures r == start.Walk(Max(p.nHeight - nStep, 0))
  {
    var nHeight := Max(p.nHeight - nStep, 0);
    WalkAgain(start, p.nHeight, nHeight);
    if chain.Contains(p) {
      WalkAgain(chain.Tip(), p.nHeight, nHeight);
      r := chain.At(nHeight);
    } else {
      BuiltBelow(start, p.nHeight);
      r := p.GetAncestor(nHeight);
    }
  }

  lemma HeightsNext(h: nat, n: nat)
    ensures h == 0 ==> Heights(h, n)[1..] == []
    ensures h > 0 ==> Heights(h, n)[1..] == Heights(Max(h - StepAfter(n), 0), n + 1)
    ensures StepAfter(n + 1) == if n + 1 > 10 then 2 * StepAfter(n) else StepAfter(n)
  {
  }

  // The entries so far and the heights to come make up the heights of the locator.
  ghost predicate Listed(start: BlockIndex, have: seq<BlockIndex>, rest: seq<nat>) {
    && start.Rooted() && |have| <= |Heights(start.nHeight, 0)|
    && Heights(start.nHeight, 0)[|have|..] == rest
    && forall i | 0 <= i < |have| :: have[i] == start.Walk(Heights(start.nHeight, 0)[i])
  }

  lemma ListedNext(start: BlockIndex, have: seq<BlockIndex>, rest: seq<nat>)
    requires Listed(start, have, rest) && rest != []
    ensures rest[0] <= start.nHeight && Listed(start, have + [start.Walk(rest[0])], rest[1..])
  {
    var hs := Heights(start.nHeight, 0);
    assert hs[|have|..][0] == hs[|have|];
    assert hs[|have| + 1..] == hs[|have|..][1..];
  }
}
