/**
 Block template selection (src/blockassembler.cpp). The mempool is a finite map of entries
 that name their mempool parents; a priority queue may hand out any of its elements, so the
 results hold for every order of priorities and scores.
 */
module BlockAssembler {

  datatype TxId = TxId(hash: nat)

  datatype Entry = Entry(
    txSize: nat,
    sigOps: nat,
    fee: int,
    modifiedFee: int,
    minRelayFee: int,
    shielded: bool,
    final: bool,
    parents: set<TxId>)

  type Pool = map<TxId, Entry>

  const MAX_BLOCK_SIGOPS: nat := 2500000 / 50
  const MAX_SHIELDED_SIZE: nat := 750000

  // Every parent an entry names is in the pool too.
  ghost predicate Closed(pool: Pool) {
    forall t | t in pool :: pool[t].parents <= pool.Keys
  }

  function Children(pool: Pool, t: TxId): set<TxId> {
    set c | c in pool && t in pool[c].parents
  }

  // ------------------------------------------------------------------------- sums

  function SumSize(pool: Pool, txs: seq<TxId>): nat
    requires forall t | t in txs :: t in pool
  {
    if txs == [] then 0 else SumSize(pool, txs[..|txs| - 1]) + pool[txs[|txs| - 1]].txSize
  }

  function SumSigOps(pool: Pool, txs: seq<TxId>): nat
    requires forall t | t in txs :: t in pool
  {
    if txs == [] then 0 else SumSigOps(pool, txs[..|txs| - 1]) + pool[txs[|txs| - 1]].sigOps
  }

  function SumFees(pool: Pool, txs: seq<TxId>): int
    requires forall t | t in txs :: t in pool
  {
    if txs == [] then 0 else SumFees(pool, txs[..|txs| - 1]) + pool[txs[|txs| - 1]].fee
  }

  function ShieldedSize(e: Entry): nat { if e.shielded then e.txSize else 0 }

  function SumShielded(pool: Pool, txs: seq<TxId>): nat
    requires forall t | t in txs :: t in pool
  {
    if txs == [] then 0 else SumShielded(pool, txs[..|txs| - 1]) + ShieldedSize(pool[txs[|txs| - 1]])
  }

  lemma SumsGrow(pool: Pool, txs: seq<TxId>, t: TxId)
    requires t in pool && forall u | u in txs :: u in pool
    ensures forall u | u in txs + [t] :: u in pool
    ensures SumSize(pool, txs + [t]) == SumSize(pool, txs) + pool[t].txSize
    ensures SumSigOps(pool, txs + [t]) == SumSigOps(pool, txs) + pool[t].sigOps
    ensures SumFees(pool, txs + [t]) == SumFees(pool, txs) + pool[t].fee
    ensures SumShielded(pool, txs + [t]) == SumShielded(pool, txs) + ShieldedSize(pool[t])
  {
    assert (txs + [t])[..|txs|] == txs;
  }

  // -------------------------------------------------------------------- a template

  ghost predicate Distinct(txs: seq<TxId>) {
    forall i, j | 0 <= i < j < |txs| :: txs[i] != txs[j]
  }

  // Every transaction comes after all its mempool parents.
  ghost predicate ParentsFirst(pool: Pool, txs: seq<TxId>) {
    forall i | 0 <= i < |txs| :: txs[i] in pool && forall p | p in pool[txs[i]].parents :: p in txs[..i]
  }

  lemma ParentsFirstGrows(pool: Pool, txs: seq<TxId>, t: TxId)
    requires ParentsFirst(pool, txs) && t in pool && forall p | p in pool[t].parents :: p in txs
    ensures ParentsFirst(pool, txs + [t])
  {
    var r := txs + [t];
    forall i | 0 <= i < |r|
      ensures r[i] in pool && forall p | p in pool[r[i]].parents :: p in r[..i]
    {
      if i < |txs| {
        assert r[..i] == txs[..i];
      } else {
        assert r[..i] == txs;
      }
    }
  }

  // A parent of t is not in the block.
  ghost predicate HasParentOutside(pool: Pool, inBlock: set<TxId>, t: TxId) {
    t in pool && exists p | p in pool[t].parents :: p !in inBlock
  }

  function Elems(txs: seq<TxId>): set<TxId> { set t | t in txs }

  // The transactions of a block, each once and after its parents, with their fees and sigops.
  ghost predicate IsTemplate(pool: Pool, vtx: seq<TxId>, fees: seq<int>, sigOps: seq<nat>, inBlock: set<TxId>) {
    && Distinct(vtx) && ParentsFirst(pool, vtx) && inBlock == Elems(vtx)
    && |fees| == |sigOps| == |vtx|
    && forall i | 0 <= i < |vtx| :: fees[i] == pool[vtx[i]].fee && sigOps[i] == pool[vtx[i]].sigOps
  }

  lemma TemplateGrows(pool: Pool, vtx: seq<TxId>, fees: seq<int>, sigOps: seq<nat>, inBlock: set<TxId>, t: TxId)
    requires IsTemplate(pool, vtx, fees, sigOps, inBlock)
    requires t in pool && t !in inBlock && !HasParentOutside(pool, inBlock, t)
    ensures IsTemplate(pool, vtx + [t], fees + [pool[t].fee], sigOps + [pool[t].sigOps], inBlock + {t})
  {
    forall p | p in pool[t].parents
      ensures p in vtx
    {
      assert p in inBlock;
    }
    ParentsFirstGrows(pool, vtx, t);
    hide ParentsFirst;
    assert Elems(vtx + [t]) == inBlock + {t};
  }

  datatype Counters = Counters(txs: nat, size: nat, sigOps: nat, fees: int, shielded: nat)

  // The counters are the sums over the block, the coinbase's reserve included.
  ghost predicate Sums(pool: Pool, vtx: seq<TxId>, carried: nat, c: Counters) {
    && (forall t | t in vtx :: t in pool)
    && c.txs == |vtx|
    && c.size == 1000 + SumSize(pool, vtx)
    && c.sigOps == 100 + SumSigOps(pool, vtx)
    && c.fees == SumFees(pool, vtx)
    && c.shielded == carried + SumShielded(pool, vtx)
  }

  ghost predicate Limits(maxSize: nat, empty: bool, carried: nat, c: Counters) {
    && c.size <= maxSize && (!empty ==> c.size < maxSize)
    && c.sigOps < MAX_BLOCK_SIGOPS
    && (c.shielded <= MAX_SHIELDED_SIZE || c.shielded == carried)
  }

  // Whether a transaction can still be added to a block with these counters.
  ghost predicate Fits(e: Entry, c: Counters, maxSize: nat, shieldingDisabled: bool) {
    && !(e.shielded && shieldingDisabled)
    && c.size + e.txSize < maxSize
    && (e.shielded ==> c.shielded + e.txSize <= MAX_SHIELDED_SIZE)
    && c.sigOps + e.sigOps < MAX_BLOCK_SIGOPS
    && e.final
  }

  // With the numbers written out.
  lemma FitsIff(e: Entry, c: Counters, maxSize: nat, shieldingDisabled: bool)
    ensures Fits(e, c, maxSize, shieldingDisabled) <==>
            && e.final && c.size + e.txSize < maxSize && c.sigOps + e.sigOps < 50000
            && (e.shielded ==> !shieldingDisabled && c.shielded + e.txSize <= 750000)
  {
  }

  // What is in the block is final, and shielded only if that is enabled.
  ghost predicate Allowed(pool: Pool, vtx: seq<TxId>, shieldingDisabled: bool) {
    forall t | t in vtx :: t in pool && pool[t].final && (pool[t].shielded ==> !shieldingDisabled)
  }

  lemma AllowedGrows(pool: Pool, vtx: seq<TxId>, c: Counters, maxSize: nat, disabled: bool, t: TxId)
    requires Allowed(pool, vtx, disabled) && t in pool && Fits(pool[t], c, maxSize, disabled)
    ensures Allowed(pool, vtx + [t], disabled)
  {
  }

  function AtMost(n: nat, limit: nat): nat { if n < limit then n else limit }

  // The number of those before the last one.
  function BeforeLast(n: nat): nat { if n == 0 then 0 else n - 1 }

  // Those selected by priority, the first n: with each of them the block was still below the size for
  // them, and each had a priority that allows to be free.
  ghost predicate ByPriority(pool: Pool, vtx: seq<TxId>, n: nat, size: nat, allowFree: TxId -> bool) {
    && n <= |vtx| && (forall t | t in vtx :: t in pool)
    && forall i | 0 <= i < n :: 1000 + SumSize(pool, vtx[..i + 1]) < size && allowFree(vtx[i])
  }

  // The counters of a block.
  ghost function CountersOf(pool: Pool, vtx: seq<TxId>, carried: nat): Counters
    requires forall t | t in vtx :: t in pool
  {
    Counters(|vtx|, 1000 + SumSize(pool, vtx), 100 + SumSigOps(pool, vtx), SumFees(pool, vtx), carried + SumShielded(pool, vtx))
  }

  // Those selected by priority reach the size for them, or the last one has too low a priority to be
  // free, or nobody else could be added.
  ghost predicate PrioritiesServed(pool: Pool, first: seq<TxId>, carried: nat, size: nat, allowFree: TxId -> bool,
                                   maxSize: nat, disabled: bool)
    requires forall t | t in first :: t in pool
  {
    || (first != [] && (1000 + SumSize(pool, first) >= size || !allowFree(first[|first| - 1])))
    || Maximal(pool, Elems(first), CountersOf(pool, first, carried), maxSize, disabled)
  }

  // From `start` on each pays the minimum, or the block was still below its minimum size.
  ghost predicate PaidFor(pool: Pool, vtx: seq<TxId>, start: nat, minSize: nat) {
    && start <= |vtx| && (forall t | t in vtx :: t in pool)
    && forall i | start <= i < |vtx| ::
         pool[vtx[i]].modifiedFee >= pool[vtx[i]].minRelayFee || 1000 + SumSize(pool, vtx[..i]) < minSize
  }

  lemma PaidForGrows(pool: Pool, vtx: seq<TxId>, start: nat, minSize: nat, t: TxId)
    requires PaidFor(pool, vtx, start, minSize) && t in pool
    requires pool[t].modifiedFee >= pool[t].minRelayFee || 1000 + SumSize(pool, vtx) < minSize
    ensures PaidFor(pool, vtx + [t], start, minSize)
  {
    var now := vtx + [t];
    forall i | start <= i < |now|
      ensures pool[now[i]].modifiedFee >= pool[now[i]].minRelayFee || 1000 + SumSize(pool, now[..i]) < minSize
    {
      assert now[..i] == vtx[..i];
      if i == |vtx| {
        assert vtx[..i] == vtx;
      }
    }
  }

  // Adding at the end does not change how those before were selected.
  lemma ByPriorityLater(pool: Pool, vtx: seq<TxId>, now: seq<TxId>, n: nat, size: nat, allowFree: TxId -> bool)
    requires ByPriority(pool, vtx, n, size, allowFree) && vtx <= now && forall t | t in now :: t in pool
    ensures ByPriority(pool, now, n, size, allowFree)
  {
    forall i | 0 <= i < n
      ensures 1000 + SumSize(pool, now[..i + 1]) < size && allowFree(now[i])
    {
      assert now[..i + 1] == vtx[..i + 1];
    }
  }

  lemma OneMoreByPriority(pool: Pool, vtx: seq<TxId>, n: nat, size: nat, allowFree: TxId -> bool)
    requires ByPriority(pool, vtx, n, size, allowFree) && |vtx| == n + 1
    requires 1000 + SumSize(pool, vtx) < size && allowFree(vtx[n])
    ensures ByPriority(pool, vtx, n + 1, size, allowFree)
  {
    assert vtx[..n + 1] == vtx;
  }

  lemma ByPriorityGrows(pool: Pool, vtx: seq<TxId>, n: nat, size: nat, allowFree: TxId -> bool, t: TxId)
    requires ByPriority(pool, vtx, n, size, allowFree) && n == |vtx| && t in pool
    ensures ByPriority(pool, vtx + [t], n, size, allowFree)
    ensures 1000 + SumSize(pool, vtx + [t]) < size && allowFree(t) ==>
      ByPriority(pool, vtx + [t], n + 1, size, allowFree)
  {
    var now := vtx + [t];
    ByPriorityLater(pool, vtx, now, n, size, allowFree);
    if 1000 + SumSize(pool, now) < size && allowFree(t) {
      OneMoreByPriority(pool, now, n, size, allowFree);
    }
  }

  // The counters of a block only grow.
  ghost predicate Grown(c: Counters, d: Counters) {
    c.size <= d.size && c.sigOps <= d.sigOps && c.shielded <= d.shielded
  }

  // A block is finished only within 1000 bytes of its size, or with no sigop to spare but one.
  ghost predicate NearlyFull(maxSize: nat, c: Counters) {
    c.size > maxSize - 1000 || c.sigOps > MAX_BLOCK_SIGOPS - 2
  }

  ghost predicate Finishing(maxSize: nat, lastFewTxs: nat, blockFinished: bool, c: Counters) {
    && (lastFewTxs > 0 ==> c.size > maxSize - 1000)
    && (blockFinished ==> NearlyFull(maxSize, c))
  }

  // These transactions do not fit in the block any more.
  ghost predicate Refused(pool: Pool, txs: set<TxId>, c: Counters, maxSize: nat, disabled: bool) {
    forall t | t in txs :: t in pool && !Fits(pool[t], c, maxSize, disabled)
  }

  // No transaction could be added: each is in the block, lacks a parent in it or does not fit.
  ghost predicate Maximal(pool: Pool, inBlock: set<TxId>, c: Counters, maxSize: nat, disabled: bool) {
    forall t | t in pool && t !in inBlock :: HasParentOutside(pool, inBlock, t) || !Fits(pool[t], c, maxSize, disabled)
  }

  lemma RefusedLater(pool: Pool, txs: set<TxId>, c: Counters, d: Counters, maxSize: nat, disabled: bool)
    requires Refused(pool, txs, c, maxSize, disabled) && Grown(c, d)
    ensures Refused(pool, txs, d, maxSize, disabled)
  {
  }

  // When nothing is left to try the block is maximal.
  lemma NothingLeft(pool: Pool, inBlock: set<TxId>, waiting: set<TxId>, refused: set<TxId>, c: Counters, maxSize: nat,
                    disabled: bool)
    requires pool.Keys == inBlock + waiting + refused
    requires Waits(pool, inBlock, waiting) && Refused(pool, refused, c, maxSize, disabled)
    ensures Maximal(pool, inBlock, c, maxSize, disabled)
  {
    hide Fits, HasParentOutside;
    forall t | t in pool && t !in inBlock
      ensures HasParentOutside(pool, inBlock, t) || !Fits(pool[t], c, maxSize, disabled)
    {
      assert t in pool.Keys;
    }
  }

  // A transaction that could be added but pays less than the minimum.
  ghost predicate PaysTooLittle(pool: Pool, inBlock: set<TxId>, t: TxId) {
    t in pool && t !in inBlock && !HasParentOutside(pool, inBlock, t) && pool[t].modifiedFee < pool[t].minRelayFee
  }

  // It has a parent in the block.
  ghost predicate Released(pool: Pool, inBlock: set<TxId>, t: TxId) {
    t in pool && exists p :: p in pool[t].parents && p in inBlock
  }

  ghost predicate AllReleased(pool: Pool, inBlock: set<TxId>, txs: set<TxId>) {
    forall t | t in txs :: Released(pool, inBlock, t)
  }

  // In the block, without one of its parents there, or too large for what is left.
  ghost predicate DealtWith(pool: Pool, inBlock: set<TxId>, c: Counters, maxSize: nat, disabled: bool, t: TxId) {
    t in inBlock || HasParentOutside(pool, inBlock, t) || (t in pool && !Fits(pool[t], c, maxSize, disabled))
  }

  // The selection by score stopped at `low`, which pays too little: it is the last of those gone
  // through in the order, and all others are dealt with, or it was put back when a parent was added,
  // and so may be others.
  ghost predicate StoppedAt(pool: Pool, inBlock: set<TxId>, c: Counters, maxSize: nat, disabled: bool,
                            gone: seq<TxId>, low: TxId)
  {
    && PaysTooLittle(pool, inBlock, low) && gone != [] && low in gone
    && (low == gone[|gone| - 1] || Released(pool, inBlock, low))
    && forall t | t in gone && t != low ::
         DealtWith(pool, inBlock, c, maxSize, disabled, t)
         || (Released(pool, inBlock, low) && Released(pool, inBlock, t))
  }

  lemma ReleasedMore(pool: Pool, before: set<TxId>, inBlock: set<TxId>, a: set<TxId>, b: set<TxId>, t: TxId)
    requires AllReleased(pool, before, a) && before <= inBlock && b <= a + Children(pool, t)
    requires b <= a || t in inBlock
    ensures AllReleased(pool, inBlock, b)
  {
    forall u | u in b
      ensures Released(pool, inBlock, u)
    {
      if u in a {
        var p :| p in pool[u].parents && p in before;
        assert p in inBlock;
      } else {
        assert t in pool[u].parents;
      }
    }
  }

  // What is known when a transaction turns out to pay too little.
  lemma StopsHere(pool: Pool, inBlock: set<TxId>, c: Counters, maxSize: nat, disabled: bool, order: seq<TxId>, mi: nat,
                  cleared: set<TxId>, waiting: set<TxId>, refused: set<TxId>, low: TxId)
    requires 0 < mi <= |order| && Distinct(order) && Elems(order) == pool.Keys && low in Elems(order[..mi])
    requires Pending(pool.Keys, cleared + Elems(order[mi..]) + {low}, inBlock, waiting, refused)
    requires Waits(pool, inBlock, waiting) && Refused(pool, refused, c, maxSize, disabled)
    requires AllReleased(pool, inBlock, cleared) && PaysTooLittle(pool, inBlock, low)
    requires Released(pool, inBlock, low) || (cleared == {} && low == order[mi - 1])
    ensures StoppedAt(pool, inBlock, c, maxSize, disabled, order[..mi], low)
  {
    hide HasParentOutside, Fits, PaysTooLittle, Released;
    forall t | t in order[..mi] && t != low
      ensures DealtWith(pool, inBlock, c, maxSize, disabled, t)
           || (Released(pool, inBlock, low) && Released(pool, inBlock, t))
    {
      var i :| 0 <= i < mi && order[i] == t;
      assert t in pool.Keys && t !in order[mi..];
    }
  }

  lemma CountersGrow(pool: Pool, vtx: seq<TxId>, carried: nat, c: Counters, t: TxId)
    requires Sums(pool, vtx, carried, c) && t in pool
    ensures Sums(pool, vtx + [t], carried, Plus(c, pool[t]))
  {
    SumsGrow(pool, vtx, t);
  }

  function Plus(c: Counters, e: Entry): Counters {
    Counters(c.txs + 1, c.size + e.txSize, c.sigOps + e.sigOps, c.fees + e.fee, c.shielded + ShieldedSize(e))
  }

  lemma LimitsGrow(e: Entry, c: Counters, maxSize: nat, disabled: bool, carried: nat, lastFewTxs: nat, finished: bool)
    requires Fits(e, c, maxSize, disabled) && Finishing(maxSize, lastFewTxs, finished, c)
    requires c.shielded <= MAX_SHIELDED_SIZE || c.shielded == carried
    ensures Limits(maxSize, false, carried, Plus(c, e)) && Finishing(maxSize, lastFewTxs, finished, Plus(c, e))
    ensures Grown(c, Plus(c, e))
  {
  }

  lemma NothingYet(pool: Pool, carried: nat)
    ensures IsTemplate(pool, [], [], [], {}) && Sums(pool, [], carried, Counters(0, 1000, 100, 0, carried))
  {
  }

  class Assembler {
    const pool: Pool
    const nBlockMaxSize: nat
    const nBlockMinSize: nat
    const shieldingDisabled: bool
    var vtx: seq<TxId>
    var vTxFees: seq<int>
    var vTxSigOps: seq<nat>
    var inBlock: set<TxId>
    var nBlockSize: nat
    var nBlockTx: nat
    var nBlockSigOps: nat
    var nFees: int
    var nSizeShielded: nat
    var lastFewTxs: nat
    var blockFinished: bool
    // What nSizeShielded held when the block was started.
    ghost var carried: nat

    ghost function Totals(): Counters
      reads this
    {
      Counters(nBlockTx, nBlockSize, nBlockSigOps, nFees, nSizeShielded)
    }

    ghost predicate Valid()
      reads this
    {
      && Closed(pool) && nBlockMaxSize >= 1000
      && IsTemplate(pool, vtx, vTxFees, vTxSigOps, inBlock)
      && Sums(pool, vtx, carried, Totals())
      && Limits(nBlockMaxSize, vtx == [], carried, Totals())
      && Finishing(nBlockMaxSize, lastFewTxs, blockFinished, Totals())
      && Allowed(pool, vtx, shieldingDisabled)
    }

    ghost predicate CanAdd(t: TxId)
      requires t in pool
      reads this
    {
      Fits(pool[t], Totals(), nBlockMaxSize, shieldingDisabled)
    }

    ghost predicate IsMaximal()
      reads this
    {
      Maximal(pool, inBlock, Totals(), nBlockMaxSize, shieldingDisabled)
    }

    constructor (mempool: Pool, maxSize: nat, minSize: nat, disabled: bool)
      requires Closed(mempool)
      ensures pool == mempool && 1000 <= nBlockMaxSize <= 2499000 && nBlockMinSize <= nBlockMaxSize
      ensures Valid() && vtx == [] && nSizeShielded == 0 && shieldingDisabled == disabled
      ensures 1000 <= maxSize <= 2499000 ==> nBlockMaxSize == maxSize
    {
      var clamped := if maxSize > 2499000 then 2499000 else if maxSize < 1000 then 1000 else maxSize;
      pool, nBlockMaxSize, shieldingDisabled := mempool, clamped, disabled;
      nBlockMinSize := if minSize < clamped then minSize else clamped;
      vtx, vTxFees, vTxSigOps, inBlock := [], [], [], {};
      nBlockSize, nBlockTx, nBlockSigOps, nFees, nSizeShielded := 1000, 0, 100, 0, 0;
      lastFewTxs, blockFinished, carried := 0, false, 0;
    }

    // Starting a block over. The size of the shielded transactions is not reset, so it counts
    // those of earlier blocks too.
    method ResetBlock()
      requires Closed(pool) && nBlockMaxSize >= 1000
      modifies this
      ensures Valid() && vtx == [] && !blockFinished && lastFewTxs == 0
      ensures carried == nSizeShielded == old(nSizeShielded)
    {
      NothingYet(pool, nSizeShielded);
      hide Closed, IsTemplate, Sums;
      inBlock, vtx, vTxFees, vTxSigOps := {}, [], [], [];
      nBlockSize, nBlockSigOps := 1000, 100;
      nBlockTx, nFees := 0, 0;
      lastFewTxs, blockFinished := 0, false;
      carried := nSizeShielded;
    }

    method IsStillDependent(t: TxId) returns (r: bool)
      requires t in pool
      ensures r <==> HasParentOutside(pool, inBlock, t)
    {
      var rest := pool[t].parents;
      while rest != {}
        invariant rest <= pool[t].parents
        invariant forall p | p in pool[t].parents && p !in rest :: p in inBlock
        decreases rest
      {
        var p :| p in rest;
        if p !in inBlock {
          return true;
        }
        rest := rest - {p};
      }
      return false;
    }

    // Whether a transaction fits; a block that is all but full is finished.
    method TestForBlock(t: TxId) returns (fits: bool)
      requires Valid() && t in pool
      modifies this`lastFewTxs, this`blockFinished
      ensures Valid() && (fits <==> CanAdd(t))
      ensures blockFinished && !old(blockFinished) ==>
        nBlockSize > nBlockMaxSize - 100 || old(lastFewTxs) > 50 || nBlockSigOps > MAX_BLOCK_SIGOPS - 2
      ensures old(blockFinished) ==> blockFinished
      ensures fits ==> blockFinished == old(blockFinished)
    {
      var e := pool[t];
      if e.shielded && shieldingDisabled {
        return false;
      }
      if nBlockSize + e.txSize >= nBlockMaxSize {
        if nBlockSize > nBlockMaxSize - 100 || lastFewTxs > 50 {
          blockFinished := true;
          return false;
        }
        if nBlockSize > nBlockMaxSize - 1000 {
          lastFewTxs := lastFewTxs + 1;
        }
        return false;
      }
      if e.shielded && nSizeShielded + e.txSize > MAX_SHIELDED_SIZE {
        return false;
      }
      if nBlockSigOps + e.sigOps >= MAX_BLOCK_SIGOPS {
        if nBlockSigOps > MAX_BLOCK_SIGOPS - 2 {
          blockFinished := true;
        }
        return false;
      }
      return e.final;
    }

    method AddToBlock(t: TxId)
      requires Valid() && t in pool && t !in inBlock && !HasParentOutside(pool, inBlock, t)
      requires CanAdd(t)
      modifies `vtx, `vTxFees, `vTxSigOps, `inBlock, `nBlockTx, `nBlockSize, `nBlockSigOps, `nFees, `nSizeShielded
      ensures Valid() && vtx == old(vtx) + [t] && inBlock == old(inBlock) + {t} && Grown(old(Totals()), Totals())
    {
      var e := pool[t];
      TemplateGrows(pool, vtx, vTxFees, vTxSigOps, inBlock, t);
      CountersGrow(pool, vtx, carried, Totals(), t);
      LimitsGrow(e, Totals(), nBlockMaxSize, shieldingDisabled, carried, lastFewTxs, blockFinished);
      AllowedGrows(pool, vtx, Totals(), nBlockMaxSize, shieldingDisabled, t);
      hide IsTemplate, Sums, Closed, Limits, Finishing, Plus, Allowed;
      vtx, vTxFees, vTxSigOps := vtx + [t], vTxFees + [e.fee], vTxSigOps + [e.sigOps];
      Count(e);
      inBlock := inBlock + {t};
    }

    method Count(e: Entry)
      modifies `nBlockTx, `nBlockSize, `nBlockSigOps, `nFees, `nSizeShielded
      ensures Totals() == Plus(old(Totals()), e)
    {
      nBlockSize := nBlockSize + e.txSize;
      nBlockTx := nBlockTx + 1;
      nBlockSigOps := nBlockSigOps + e.sigOps;
      nFees := nFees + e.fee;
      if e.shielded {
        nSizeShielded := nSizeShielded + e.txSize;
      }
    }

    // Waiting children of a transaction that got into the block can be tried again.
    method ClearChildren(t: TxId, waiting: set<TxId>, queue: seq<TxId>) returns (w: set<TxId>, q: seq<TxId>)
      requires Distinct(queue) && waiting !! Elems(queue)
      ensures w == waiting - Children(pool, t)
      ensures Distinct(q) && Elems(q) == Elems(queue) + (waiting * Children(pool, t))
    {
      w, q := waiting, queue;
      var rest := Children(pool, t);
      while rest != {}
        invariant rest <= Children(pool, t) && Distinct(q) && w !! Elems(q)
        invariant w == waiting - (Children(pool, t) - rest)
        invariant Elems(q) == Elems(queue) + (waiting * (Children(pool, t) - rest))
        decreases rest
      {
        var child :| child in rest;
        rest := rest - {child};
        if child in w {
          assert child !in Elems(q);
          q := q + [child];
          w := w - {child};
        }
      }
    }

    // Transactions by priority, up to a size. That a transaction of the queue is in the block
    // already does not happen. If neither a full block nor the size or priority wanted ended the
    // selection, no other transaction could be added.
    method AddPriorityTxs(prioritySize: nat, order: seq<TxId>, allowFree: TxId -> bool)
      returns (waiting: set<TxId>, enough: bool)
      requires Valid() && vtx == [] && Distinct(order) && Elems(order) == pool.Keys
      modifies this
      ensures Valid() && carried == old(carried)
      ensures prioritySize == 0 ==> vtx == [] && blockFinished == old(blockFinished)
      ensures !enough ==> Waits(pool, inBlock, waiting)
      ensures enough ==>
        vtx != [] && (nBlockSize >= prioritySize || nBlockSize >= nBlockMaxSize || !allowFree(vtx[|vtx| - 1]))
      ensures prioritySize > 0 && !enough && !blockFinished ==> IsMaximal()
      ensures ByPriority(pool, vtx, BeforeLast(|vtx|), AtMost(prioritySize, nBlockMaxSize), allowFree)
      ensures !enough ==> ByPriority(pool, vtx, |vtx|, AtMost(prioritySize, nBlockMaxSize), allowFree)
    {
      hide IsTemplate, Sums, Limits, Closed, Distinct, HasParentOutside, Finishing, Fits, Allowed;
      assert inBlock == {} by {
        NothingIn();
      }
      waiting, enough := {}, false;
      var nBlockPrioritySize := AtMost(prioritySize, nBlockMaxSize);
      if nBlockPrioritySize == 0 {
        return;
      }
      var queue := order;
      ghost var refused: set<TxId> := {};
      PendingAtFirst(pool.Keys, Elems(queue), inBlock);
      assert {} + Elems(queue) == Elems(queue);
      NothingRefused(pool, Totals(), nBlockMaxSize, shieldingDisabled);
      hide Pending, Refused, ByPriority;
      while queue != [] && !blockFinished
        invariant Valid() && carried == old(carried) && ByPriority(pool, vtx, |vtx|, nBlockPrioritySize, allowFree)
        invariant Distinct(queue) && Elems(queue) <= pool.Keys && waiting <= pool.Keys
        invariant waiting !! Elems(queue) && inBlock !! Elems(queue)
        invariant Waits(pool, inBlock, waiting)
        invariant Pending(pool.Keys, Elems(queue), inBlock, waiting, refused)
        invariant Refused(pool, refused, Totals(), nBlockMaxSize, shieldingDisabled)
        decreases pool.Keys - inBlock, |queue|
      {
        var t;
        ghost var all, b, w, totals := Elems(queue), inBlock, waiting, Totals();
        t, queue := Pop(queue);
        ghost var rest := Elems(queue);
        if t in inBlock {
          assert false;
        }
        ghost var tried;
        waiting, queue, enough, tried := TryPrioritized(t, waiting, queue, nBlockPrioritySize, allowFree);
        if enough {
          return;
        }
        PendingMoves(pool.Keys, all, rest, t, b, w, refused, Elems(queue), inBlock, waiting, tried);
        RefusedLater(pool, refused, totals, Totals(), nBlockMaxSize, shieldingDisabled);
        RefusedMore(pool, refused, tried, Totals(), nBlockMaxSize, shieldingDisabled);
        refused := refused + tried;
      }
      FewerByPriority(pool, vtx, |vtx|, BeforeLast(|vtx|), nBlockPrioritySize, allowFree);
      if queue == [] {
        PendingAtLast(pool.Keys, inBlock, waiting, refused);
        assert Elems(queue) == {};
        NothingLeft(pool, inBlock, waiting, refused, Totals(), nBlockMaxSize, shieldingDisabled);
      }
    }

    // One round of the selection by priority.
    method TryPrioritized(t: TxId, waiting: set<TxId>, queue: seq<TxId>, nBlockPrioritySize: nat, allowFree: TxId -> bool)
      returns (w: set<TxId>, q: seq<TxId>, enough: bool, ghost refused: set<TxId>)
      requires Valid() && t in pool && t !in inBlock && Waits(pool, inBlock, waiting)
      requires t !in waiting && t !in Elems(queue) && waiting !! Elems(queue) && Distinct(queue)
      requires inBlock !! Elems(queue) && ByPriority(pool, vtx, |vtx|, nBlockPrioritySize, allowFree)
      modifies this
      ensures Valid() && carried == old(carried) && Grown(old(Totals()), Totals())
      ensures enough ==> vtx != [] && ByPriority(pool, vtx, |vtx| - 1, nBlockPrioritySize, allowFree)
      ensures !enough ==> ByPriority(pool, vtx, |vtx|, nBlockPrioritySize, allowFree)
      ensures enough ==> vtx != [] && (nBlockSize >= nBlockPrioritySize || !allowFree(vtx[|vtx| - 1]))
      ensures !enough ==> Waits(pool, inBlock, w) && w !! Elems(q) && Distinct(q) && inBlock !! Elems(q)
      ensures (inBlock == old(inBlock) && q == queue) || inBlock == old(inBlock) + {t}
      ensures !enough ==> w + Elems(q) + inBlock + refused == waiting + Elems(queue) + old(inBlock) + {t}
      ensures Refused(pool, refused, Totals(), nBlockMaxSize, shieldingDisabled)
    {
      hide IsTemplate, Sums, Limits, Closed, Distinct, HasParentOutside, Finishing, Fits, Allowed, ByPriority;
      w, q, enough, refused := waiting, queue, false, {};
      var dependent := IsStillDependent(t);
      if dependent {
        w := w + {t};
        return;
      }
      var fits := TestForBlock(t);
      if fits {
        ByPriorityGrows(pool, vtx, |vtx|, nBlockPrioritySize, allowFree, t);
        AddToBlock(t);
        SizeIs();
        if nBlockSize >= nBlockPrioritySize || !allowFree(t) {
          enough := true;
          return;
        }
        WaitsOn(pool, old(inBlock), waiting, t);
        w, q := ClearChildren(t, waiting, queue);
      } else {
        refused := {t};
      }
    }

    // The selection by score, after going through these, stopped at a fee that is too low.
    ghost predicate HasStopped(gone: seq<TxId>, low: TxId)
      reads this
    {
      StoppedAt(pool, inBlock, Totals(), nBlockMaxSize, shieldingDisabled, gone, low)
    }

    lemma SizeIs()
      requires Valid()
      ensures (forall t | t in vtx :: t in pool) && nBlockSize == 1000 + SumSize(pool, vtx)
    {
    }

    lemma NothingIn()
      requires Valid()
      ensures inBlock <= pool.Keys && (vtx == [] ==> inBlock == {})
    {
    }

    // Transactions by score. A transaction left waiting has a parent outside of the block. If the
    // block is finished it is nearly full; if a low fee ended the selection, those gone through before
    // are dealt with; otherwise no other transaction could be added.
    method AddScoreTxs(order: seq<TxId>) returns (waiting: set<TxId>, lowFee: bool, mi: nat)
      requires Valid() && Distinct(order) && Elems(order) == pool.Keys
      modifies this
      ensures Valid() && carried == old(carried) && old(vtx) <= vtx
      ensures Waits(pool, inBlock, waiting)
      ensures mi <= |order|
      ensures lowFee ==> nBlockSize >= nBlockMinSize && exists low :: HasStopped(order[..mi], low)
      ensures !blockFinished && !lowFee ==> IsMaximal()
      ensures PaidFor(pool, vtx, |old(vtx)|, nBlockMinSize)
      ensures old(blockFinished) ==> blockFinished
    {
      hide IsTemplate, Sums, Limits, Closed, Distinct, HasParentOutside, Finishing, Fits, PaysTooLittle, StoppedAt,
           AllReleased, Released, Allowed;
      SizeIs();
      waiting, lowFee := {}, false;
      ghost var refused: set<TxId> := {};
      var cleared: seq<TxId> := [];
      mi := 0;
      assert order[0..] == order;
      NothingTwice();
      NothingIn();
      NoneReleased(pool, inBlock);
      PendingAtFirst(pool.Keys, Elems(order[0..]), inBlock);
      hide Pending, Refused;
      NothingRefused(pool, Totals(), nBlockMaxSize, shieldingDisabled);
      while !blockFinished && (mi < |order| || cleared != [])
        invariant Valid() && carried == old(carried) && old(vtx) <= vtx && 0 <= mi <= |order|
        invariant PaidFor(pool, vtx, |old(vtx)|, nBlockMinSize) && (old(blockFinished) ==> blockFinished)
        invariant Distinct(cleared) && Elems(cleared) <= pool.Keys && waiting <= pool.Keys && waiting !! Elems(cleared)
        invariant Waits(pool, inBlock, waiting)
        invariant Pending(pool.Keys, Elems(cleared) + Elems(order[mi..]), inBlock, waiting, refused)
        invariant Refused(pool, refused, Totals(), nBlockMaxSize, shieldingDisabled)
        invariant waiting + Elems(cleared) <= Elems(order[..mi]) && AllReleased(pool, inBlock, Elems(cleared))
        decreases pool.Keys - inBlock, |order| - mi + |cleared|
      {
        ghost var before := Elems(cleared);
        var t;
        t, mi, cleared := NextToTry(order, mi, cleared, waiting);
        TriedNext(pool, inBlock, before, Elems(cleared), t);
        ghost var c, rest, b, w, totals := Elems(cleared), Elems(order[mi..]), inBlock, waiting, Totals();
        PendingAt(pool.Keys, c, rest, t, b, w, refused);
        if t in inBlock {
          continue;
        }
        ghost var tried;
        ghost var sofar := vtx;
        SizeIs();
        if pool[t].modifiedFee >= pool[t].minRelayFee || nBlockSize < nBlockMinSize {
          PaidForGrows(pool, vtx, |old(vtx)|, nBlockMinSize, t);
        }
        hide PaidFor;
        waiting, cleared, lowFee, tried := TryScored(t, waiting, cleared);
        if lowFee {
          StopsHere(pool, inBlock, totals, nBlockMaxSize, shieldingDisabled, order, mi, c, w, refused, t);
          assert HasStopped(order[..mi], t);
          return;
        }
        ReleasedMore(pool, b, inBlock, c, Elems(cleared), t);
        PendingNext(pool.Keys, c, rest, t, b, w, refused, Elems(cleared), inBlock, waiting, tried);
        RefusedLater(pool, refused, totals, Totals(), nBlockMaxSize, shieldingDisabled);
        RefusedMore(pool, refused, tried, Totals(), nBlockMaxSize, shieldingDisabled);
        refused := refused + tried;
      }
      if mi == |order| && cleared == [] {
        PendingAtLast(pool.Keys, inBlock, waiting, refused);
        assert Elems(cleared) + Elems(order[mi..]) == {};
        NothingLeft(pool, inBlock, waiting, refused, Totals(), nBlockMaxSize, shieldingDisabled);
      }
    }

    // One round of the selection by score: the transaction tried is in the block, waiting, does not
    // fit or pays too little.
    method TryScored(t: TxId, waiting: set<TxId>, cleared: seq<TxId>)
      returns (w: set<TxId>, c: seq<TxId>, lowFee: bool, ghost refused: set<TxId>)
      requires Valid() && t in pool && t !in inBlock && Waits(pool, inBlock, waiting)
      requires t !in waiting && t !in Elems(cleared) && waiting !! Elems(cleared) && Distinct(cleared)
      modifies this
      ensures Valid() && carried == old(carried) && old(vtx) <= vtx && Grown(old(Totals()), Totals())
      ensures Waits(pool, inBlock, w) && w !! Elems(c) && Distinct(c)
      ensures (inBlock == old(inBlock) && c == cleared) || inBlock == old(inBlock) + {t}
      ensures w + Elems(c) <= waiting + Elems(cleared) + {t}
      ensures Elems(c) <= Elems(cleared) + Children(pool, t) && old(inBlock) <= inBlock
      ensures lowFee ==> nBlockSize >= nBlockMinSize && PaysTooLittle(pool, inBlock, t)
      ensures lowFee ==> inBlock == old(inBlock) && Totals() == old(Totals())
      ensures lowFee <==>
        && !HasParentOutside(pool, old(inBlock), t)
        && pool[t].modifiedFee < pool[t].minRelayFee && old(nBlockSize) >= nBlockMinSize
      ensures vtx == old(vtx) || (vtx == old(vtx) + [t] && !lowFee && !HasParentOutside(pool, old(inBlock), t))
      ensures !lowFee ==> w + Elems(c) + inBlock + refused == waiting + Elems(cleared) + old(inBlock) + {t}
      ensures Refused(pool, refused, Totals(), nBlockMaxSize, shieldingDisabled)
    {
      hide IsTemplate, Sums, Limits, Closed, Distinct, HasParentOutside, Finishing, Fits, Allowed;
      w, c, lowFee, refused := waiting, cleared, false, {};
      var dependent := IsStillDependent(t);
      if dependent {
        w := w + {t};
        return;
      }
      if pool[t].modifiedFee < pool[t].minRelayFee && nBlockSize >= nBlockMinSize {
        lowFee := true;
        return;
      }
      var fits := TestForBlock(t);
      if fits {
        AddToBlock(t);
        WaitsOn(pool, old(inBlock), waiting, t);
        w, c := ClearChildren(t, waiting, cleared);
      } else {
        refused := {t};
      }
    }

    // A whole template: first by priority, then by score. Unless the block is nearly full or the
    // fees that are left are too low, no transaction could be added to it. The shielded size is that
    // of the block's own transactions exactly if it was zero before, because it is never reset; the
    // limit on it holds for the block in either case.
    method SelectTxs(prioritySize: nat, byPriority: seq<TxId>, allowFree: TxId -> bool, byScore: seq<TxId>)
      returns (lowFee: bool, gone: nat, ghost start: nat)
      requires Closed(pool) && nBlockMaxSize >= 1000
      requires Distinct(byPriority) && Elems(byPriority) == pool.Keys
      requires Distinct(byScore) && Elems(byScore) == pool.Keys
      modifies this
      ensures Valid() && carried == old(nSizeShielded)
      ensures blockFinished ==> NearlyFull(nBlockMaxSize, Totals())
      ensures gone <= |byScore|
      ensures lowFee ==> nBlockSize >= nBlockMinSize && exists low :: HasStopped(byScore[..gone], low)
      ensures !blockFinished && !lowFee ==> IsMaximal()
      ensures PaidFor(pool, vtx, start, nBlockMinSize)
      ensures prioritySize == 0 ==> start == 0
      ensures ByPriority(pool, vtx, BeforeLast(start), AtMost(prioritySize, nBlockMaxSize), allowFree)
      ensures start <= |vtx| && (forall t | t in vtx :: t in pool)
      ensures prioritySize > 0 && !blockFinished ==>
        PrioritiesServed(pool, vtx[..start], carried, AtMost(prioritySize, nBlockMaxSize), allowFree, nBlockMaxSize,
                         shieldingDisabled)
      ensures SumShielded(pool, vtx) <= MAX_SHIELDED_SIZE
      ensures nSizeShielded == SumShielded(pool, vtx) <==> old(nSizeShielded) == 0
    {
      ResetBlock();
      hide IsTemplate, Sums, Limits, Closed, Distinct, Maximal, StoppedAt, Allowed, Finishing, Waits, ByPriority, PaidFor,
           NearlyFull, SumShielded, SumSize, PrioritiesServed;
      AddFirst(prioritySize, byPriority, allowFree);
      start := |vtx|;
      ghost var first := vtx;
      var _, low, next := AddScoreTxs(byScore);
      lowFee, gone := low, next;
      SizeIs();
      ByPriorityLater(pool, first, vtx, BeforeLast(start), AtMost(prioritySize, nBlockMaxSize), allowFree);
      ShieldedWithin();
      assert vtx[..start] == first;
    }

    // The part by priority, without its results.
    method AddFirst(prioritySize: nat, order: seq<TxId>, allowFree: TxId -> bool)
      requires Valid() && vtx == [] && Distinct(order) && Elems(order) == pool.Keys
      modifies this
      ensures Valid() && carried == old(carried) && (prioritySize == 0 ==> vtx == [])
      ensures ByPriority(pool, vtx, BeforeLast(|vtx|), AtMost(prioritySize, nBlockMaxSize), allowFree)
      ensures forall t | t in vtx :: t in pool
      ensures prioritySize > 0 && !blockFinished ==>
        PrioritiesServed(pool, vtx, carried, AtMost(prioritySize, nBlockMaxSize), allowFree, nBlockMaxSize,
                         shieldingDisabled)
    {
      hide IsTemplate, Sums, Limits, Closed, Distinct, Maximal, Allowed, Finishing, Waits, ByPriority, PrioritiesServed;
      var _, enough := AddPriorityTxs(prioritySize, order, allowFree);
      SizeIs();
      if enough || (prioritySize > 0 && !blockFinished) {
        Served(prioritySize, allowFree, enough);
      }
    }

    lemma Served(prioritySize: nat, allowFree: TxId -> bool, enough: bool)
      requires Valid() && (!enough ==> IsMaximal())
      requires enough ==>
        vtx != [] && (nBlockSize >= prioritySize || nBlockSize >= nBlockMaxSize || !allowFree(vtx[|vtx| - 1]))
      ensures forall t | t in vtx :: t in pool
      ensures PrioritiesServed(pool, vtx, carried, AtMost(prioritySize, nBlockMaxSize), allowFree, nBlockMaxSize,
                               shieldingDisabled)
    {
      hide Limits, Closed, Finishing, Maximal, Fits, Allowed;
    }

    lemma ShieldedWithin()
      requires Valid()
      ensures blockFinished ==> NearlyFull(nBlockMaxSize, Totals())
      ensures (forall t | t in vtx :: t in pool) && SumShielded(pool, vtx) <= MAX_SHIELDED_SIZE
      ensures nSizeShielded == carried + SumShielded(pool, vtx)
    {
    }
  }

  lemma FewerByPriority(pool: Pool, vtx: seq<TxId>, n: nat, m: nat, size: nat, allowFree: TxId -> bool)
    requires ByPriority(pool, vtx, n, size, allowFree) && m <= n
    ensures ByPriority(pool, vtx, m, size, allowFree)
  {
  }

  lemma NothingRefused(pool: Pool, c: Counters, maxSize: nat, disabled: bool)
    ensures Refused(pool, {}, c, maxSize, disabled)
  {
  }

  lemma RefusedMore(pool: Pool, a: set<TxId>, b: set<TxId>, c: Counters, maxSize: nat, disabled: bool)
    requires Refused(pool, a, c, maxSize, disabled) && Refused(pool, b, c, maxSize, disabled)
    ensures Refused(pool, a + b, c, maxSize, disabled)
  {
  }

  // One shielded transaction selected twice with the same object: the second time the counter
  // holds twice its size.
  method ShieldedCarriesOver() returns (a: Assembler)
    ensures a.Valid() && (forall t | t in a.vtx :: t in a.pool)
    ensures a.nSizeShielded == 400 && SumShielded(a.pool, a.vtx) == 200
  {
    var t := TxId(1);
    var pool := map[t := Entry(200, 1, 10, 10, 0, true, true, {})];
    a := new Assembler(pool, 750000, 0, false);
    assert Elems([t]) == pool.Keys;
    var _, _, _ := a.SelectTxs(0, [t], _ => true, [t]);
    OnlyChoice(a, t);
    var _, _, _ := a.SelectTxs(0, [t], _ => true, [t]);
    OnlyChoice(a, t);
  }

  // The contract of the selection leaves no choice for a pool of one transaction that fits.
  lemma OnlyChoice(a: Assembler, t: TxId)
    requires a.Valid() && a.pool == map[t := Entry(200, 1, 10, 10, 0, true, true, {})]
    requires a.nBlockMaxSize == 750000 && !a.shieldingDisabled && a.carried <= 200
    requires a.blockFinished ==> NearlyFull(a.nBlockMaxSize, a.Totals())
    requires a.blockFinished || a.IsMaximal() || exists u :: PaysTooLittle(a.pool, a.inBlock, u)
    ensures a.vtx == [t] && SumShielded(a.pool, a.vtx) == 200
  {
    assert t in a.pool;
    if a.vtx == [] {
      assert false;
    }
    OneOnly(a.vtx, t);
    assert [t][..0] == [];
  }

  lemma OneOnly(txs: seq<TxId>, t: TxId)
    requires txs != [] && Distinct(txs) && forall i | 0 <= i < |txs| :: txs[i] == t
    ensures txs == [t]
  {
    if |txs| > 1 {
      TwoDiffer(txs);
      assert false;
    }
  }

  lemma TwoDiffer(txs: seq<TxId>)
    requires |txs| > 1 && Distinct(txs)
    ensures txs[0] != txs[1]
  {
  }

  lemma NothingTwice()
    ensures Distinct([])
  {
  }

  // Transactions that wait have a parent outside of the block.
  ghost predicate Waits(pool: Pool, inBlock: set<TxId>, waiting: set<TxId>) {
    forall t | t in waiting :: HasParentOutside(pool, inBlock, t) && t !in inBlock
  }

  // Those that are not children of the transaction added still wait.
  lemma WaitsOn(pool: Pool, inBlock: set<TxId>, waiting: set<TxId>, t: TxId)
    requires Waits(pool, inBlock, waiting) && !HasParentOutside(pool, inBlock, t)
    ensures Waits(pool, inBlock + {t}, waiting - Children(pool, t))
  {
    forall u | u in waiting - Children(pool, t)
      ensures HasParentOutside(pool, inBlock + {t}, u) && u !in inBlock + {t}
    {
      var p :| p in pool[u].parents && p !in inBlock;
      assert p != t;
    }
  }

  // Every transaction is still to come, cleared, waiting, in the block or refused.
  ghost predicate Pending(keys: set<TxId>, untried: set<TxId>, inBlock: set<TxId>, waiting: set<TxId>, refused: set<TxId>) {
    keys == untried + inBlock + waiting + refused
  }

  lemma PendingAtFirst(keys: set<TxId>, all: set<TxId>, b: set<TxId>)
    requires keys == all && b <= keys
    ensures Pending(keys, {} + all, b, {}, {})
  {
  }

  lemma PendingAtLast(keys: set<TxId>, b: set<TxId>, w: set<TxId>, refused: set<TxId>)
    ensures Pending(keys, {}, b, w, refused) ==> keys == b + w + refused
  {
  }

  lemma PendingAt(keys: set<TxId>, c: set<TxId>, rest: set<TxId>, t: TxId, b: set<TxId>, w: set<TxId>, refused: set<TxId>)
    requires Pending(keys, c + rest + {t}, b, w, refused)
    ensures t in b ==> Pending(keys, c + rest, b, w, refused)
  {
  }

  lemma PendingNext(keys: set<TxId>, c: set<TxId>, rest: set<TxId>, t: TxId, b: set<TxId>, w: set<TxId>,
                    refused: set<TxId>, c1: set<TxId>, b1: set<TxId>, w1: set<TxId>, tried: set<TxId>)
    requires Pending(keys, c + rest + {t}, b, w, refused) && w1 + c1 + b1 + tried == w + c + b + {t}
    ensures Pending(keys, c1 + rest, b1, w1, refused + tried)
  {
    var all, now := w + c + b + {t}, w1 + c1 + b1 + tried;
    assert keys == all + rest + refused;
    assert (c1 + rest) + b1 + w1 + (refused + tried) == now + rest + refused;
  }

  lemma PendingMoves(keys: set<TxId>, all: set<TxId>, rest: set<TxId>, t: TxId, b: set<TxId>, w: set<TxId>,
                     refused: set<TxId>, c1: set<TxId>, b1: set<TxId>, w1: set<TxId>, tried: set<TxId>)
    requires Pending(keys, all, b, w, refused) && t in all && rest == all - {t}
    requires w1 + c1 + b1 + tried == w + rest + b + {t}
    ensures Pending(keys, c1, b1, w1, refused + tried) && refused + {} == refused
  {
    assert keys == (w + rest + b + {t}) + refused;
    assert c1 + b1 + w1 + (refused + tried) == (w1 + c1 + b1 + tried) + refused;
  }

  // A cleared transaction if there is one, else the next one in the order.
  method NextToTry(order: seq<TxId>, mi: nat, cleared: seq<TxId>, ghost waiting: set<TxId>)
    returns (t: TxId, m: nat, c: seq<TxId>)
    requires mi <= |order| && (mi < |order| || cleared != []) && Distinct(order) && Distinct(cleared)
    requires waiting + Elems(cleared) <= Elems(order[..mi]) && waiting !! Elems(cleared)
    ensures mi <= m <= |order| && |order| - m + |c| == |order| - mi + |cleared| - 1
    ensures Distinct(c) && Elems(c) <= Elems(cleared) && t !in Elems(c) && t !in waiting
    ensures t in Elems(cleared) + Elems(order) && waiting + Elems(c) + {t} <= Elems(order[..m])
    ensures Elems(cleared) + Elems(order[mi..]) == Elems(c) + Elems(order[m..]) + {t}
    ensures m > 0
    ensures t in Elems(cleared) || (Elems(cleared) == {} && t == order[m - 1])
  {
    hide Distinct;
    if cleared == [] {
      t := order[mi];
      NextInOrder(order, mi);
      m, c := mi + 1, cleared;
    } else {
      t, c := Pop(cleared);
      m := mi;
    }
  }

  lemma NoneReleased(pool: Pool, inBlock: set<TxId>)
    ensures AllReleased(pool, inBlock, Elems([]))
  {
  }

  lemma TriedNext(pool: Pool, inBlock: set<TxId>, before: set<TxId>, after: set<TxId>, t: TxId)
    requires AllReleased(pool, inBlock, before) && after <= before
    ensures AllReleased(pool, inBlock, after) && (t in before ==> Released(pool, inBlock, t))
    ensures before == {} ==> after == {}
  {
  }

  lemma NextInOrder(order: seq<TxId>, mi: nat)
    requires mi < |order| && Distinct(order)
    ensures Elems(order[mi..]) == {order[mi]} + Elems(order[mi + 1..])
    ensures Elems(order[..mi + 1]) == Elems(order[..mi]) + {order[mi]}
    ensures order[mi] !in Elems(order[..mi])
  {
    assert order[mi..] == [order[mi]] + order[mi + 1..];
    assert order[..mi + 1] == order[..mi] + [order[mi]];
  }

  // Any element of a priority queue may be its first.
  method Pop(queue: seq<TxId>) returns (t: TxId, rest: seq<TxId>)
    requires queue != [] && Distinct(queue)
    ensures t in queue && Distinct(rest) && Elems(rest) == Elems(queue) - {t} && |rest| == |queue| - 1
  {
    var k :| 0 <= k < |queue|;
    t := queue[k];
    rest := queue[..k] + queue[k + 1..];
    assert queue == queue[..k] + [t] + queue[k + 1..];
  }
}
