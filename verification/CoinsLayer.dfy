/**
 One layer of the UTXO cache (src/coins.h, src/coins.cpp), as a value.

 A layer is the map `cacheCoins` of a CCoinsViewCache. Its meaning is the set of
 unspent coins seen through it, given the set seen through the view below. DIRTY
 says that an entry may differ from the view below, FRESH that the view below has
 no unspent coin there, which lets a spent entry be dropped instead of propagated.
 */
module CoinsLayer {
  import opened Options

  datatype OutPoint = OutPoint(hash: nat, n: nat)

  datatype TxOut = TxOut(nValue: int, scriptPubKey: seq<bv8>)

  datatype Coin = Coin(out: TxOut, nHeight: nat, fCoinBase: bool, fCoinStake: bool) {
    predicate IsSpent() { out.nValue == -1 }

    // Outputs AddCoin never stores: provably unspendable scripts and zerocoin mints.
    predicate IsSkipped() {
      var script := out.scriptPubKey;
      || (|script| > 0 && script[0] == OP_RETURN)
      || |script| > MAX_SCRIPT_SIZE
      || (|script| > 0 && script[0] == OP_ZEROCOINMINT)
    }
  }

  const MAX_SCRIPT_SIZE := 10000
  const OP_RETURN: bv8 := 0x6a
  const OP_ZEROCOINMINT: bv8 := 0xc1

  // Coin::Clear, also the value of a default-constructed Coin.
  const CLEARED_COIN := Coin(TxOut(-1, []), 0, false, false)

  datatype CacheEntry = CacheEntry(coin: Coin, isDirty: bool, isFresh: bool)

  type CoinsMap = map<OutPoint, CacheEntry>
  type Utxo = map<OutPoint, Coin>

  // ------------------------------------------------------------------ meaning

  ghost predicate AllUnspent(u: Utxo) {
    forall o | o in u :: !u[o].IsSpent()
  }

  // The unspent coins seen through a layer over `base`.
  ghost function Overlay(base: Utxo, cache: CoinsMap): (u: Utxo)
    ensures AllUnspent(base) ==> AllUnspent(u)
  {
    map o | o in base.Keys + cache.Keys && (o in cache ==> !cache[o].coin.IsSpent())
      :: if o in cache then cache[o].coin else base[o]
  }

  // The coin at `o` is exactly what `base` shows there.
  ghost predicate Mirrors(base: Utxo, o: OutPoint, coin: Coin) {
    if coin.IsSpent() then o !in base else o in base && base[o] == coin
  }

  // What the flags promise about the view below.
  ghost predicate FlagsSound(base: Utxo, cache: CoinsMap) {
    forall o | o in cache ::
      && (!cache[o].isDirty ==> Mirrors(base, o, cache[o].coin))
      && (cache[o].isFresh ==> o !in base)
  }

  // A view may answer GetCoin with a spent coin, or not at all, where it shows nothing.
  ghost predicate Answers(base: Utxo, o: OutPoint, answer: Option<Coin>) {
    match answer
    case None => o !in base
    case Some(coin) => Mirrors(base, o, coin)
  }

  // --------------------------------------------------------------- operations

  // FetchCoin: fill the cache from the answer of the view below.
  function Fetch(cache: CoinsMap, o: OutPoint, answer: Option<Coin>): CoinsMap {
    if o in cache || answer.None? then cache
    else cache[o := CacheEntry(answer.value, false, answer.value.IsSpent())]
  }

  // AddCoin; None is the logic_error for replacing an unspent entry.
  function Add(cache: CoinsMap, o: OutPoint, coin: Coin, possibleOverwrite: bool): Option<CoinsMap> {
    if coin.IsSkipped() then Some(cache)
    else
      var entry := if o in cache then cache[o] else CacheEntry(CLEARED_COIN, false, false);
      if !possibleOverwrite && !entry.coin.IsSpent() then None
      else
        var isFresh := !possibleOverwrite && !entry.isDirty;
        Some(cache[o := CacheEntry(coin, true, entry.isFresh || isFresh)])
  }

  // SpendCoin, on a cache where FetchCoin has already run.
  function Spend(cache: CoinsMap, o: OutPoint): CoinsMap {
    if o !in cache then cache
    else if cache[o].isFresh then cache - {o}
    else cache[o := CacheEntry(CLEARED_COIN, true, false)]
  }

  function Uncache(cache: CoinsMap, o: OutPoint): CoinsMap {
    if o in cache && !cache[o].isDirty && !cache[o].isFresh then cache - {o} else cache
  }

  datatype Merged = Keep | Drop | Write(entry: CacheEntry) | Misapplied

  // One iteration of BatchWrite: the parent's entry, if any, against the child's.
  function Merge(parent: Option<CacheEntry>, child: CacheEntry): Merged {
    if !child.isDirty then Keep
    else match parent
      case None =>
        if child.isFresh && child.coin.IsSpent() then Keep
        else Write(CacheEntry(child.coin, true, child.isFresh))
      case Some(entry) =>
        if child.isFresh && !entry.coin.IsSpent() then Misapplied
        else if entry.isFresh && child.coin.IsSpent() then Drop
        else Write(CacheEntry(child.coin, true, entry.isFresh))
  }

  function Lookup<K, V>(m: map<K, V>, k: K): Option<V> {
    if k in m then Some(m[k]) else None
  }

  // The entry at `o` once BatchWrite has processed the child's entry there.
  function MergedEntry(cache: CoinsMap, child: CoinsMap, o: OutPoint): Option<CacheEntry> {
    if o !in child then Lookup(cache, o)
    else match Merge(Lookup(cache, o), child[o])
      case Write(entry) => Some(entry)
      case Drop => None
      case _ => Lookup(cache, o)
  }

  ghost function BatchWrite(cache: CoinsMap, child: CoinsMap): CoinsMap {
    map o | o in cache.Keys + child.Keys && MergedEntry(cache, child, o).Some?
      :: MergedEntry(cache, child, o).value
  }

  // The "FRESH flag misapplied" logic_error is reached on some child entry.
  ghost predicate FreshMisapplied(cache: CoinsMap, child: CoinsMap) {
    exists o | o in child :: Merge(Lookup(cache, o), child[o]).Misapplied?
  }

  // ------------------------------------------------------------------- lemmas

  // Filling the cache is invisible and keeps the flags sound.
  lemma FetchIsInvisible(base: Utxo, cache: CoinsMap, o: OutPoint, answer: Option<Coin>)
    requires FlagsSound(base, cache) && Answers(base, o, answer)
    ensures Overlay(base, Fetch(cache, o, answer)) == Overlay(base, cache)
    ensures FlagsSound(base, Fetch(cache, o, answer))
    ensures Answers(Overlay(base, cache), o,
                    if o in Fetch(cache, o, answer) then Some(Fetch(cache, o, answer)[o].coin) else None)
  {
    assert Overlay(base, Fetch(cache, o, answer)) == Overlay(base, cache);
  }

  lemma UncacheIsInvisible(base: Utxo, cache: CoinsMap, o: OutPoint)
    requires FlagsSound(base, cache)
    ensures Overlay(base, Uncache(cache, o)) == Overlay(base, cache)
    ensures FlagsSound(base, Uncache(cache, o))
  {
    assert Overlay(base, Uncache(cache, o)) == Overlay(base, cache);
  }

  // Spending removes exactly one key, whether the entry is erased or cleared. FetchCoin has
  // run before: where it left no entry, nothing is visible.
  lemma SpendRemovesOne(base: Utxo, cache: CoinsMap, o: OutPoint)
    requires FlagsSound(base, cache) && (o !in cache ==> o !in base)
    ensures Overlay(base, Spend(cache, o)) == Overlay(base, cache) - {o}
    ensures FlagsSound(base, Spend(cache, o))
  {
    assert Overlay(base, Spend(cache, o)) == Overlay(base, cache) - {o};
  }

  // Adding sets exactly one key.
  lemma AddSetsOne(base: Utxo, cache: CoinsMap, o: OutPoint, coin: Coin, possibleOverwrite: bool)
    requires FlagsSound(base, cache) && !coin.IsSpent() && !coin.IsSkipped()
    requires Add(cache, o, coin, possibleOverwrite).Some?
    ensures Overlay(base, Add(cache, o, coin, possibleOverwrite).value) == Overlay(base, cache)[o := coin]
  {
    assert Overlay(base, Add(cache, o, coin, possibleOverwrite).value) == Overlay(base, cache)[o := coin];
  }

  // Without an announced overwrite, an add that does not throw keeps the flags sound
  // exactly when no unspent coin was visible: a coin hidden in the view below is not
  // noticed by the code, and the entry is then marked FRESH wrongly.
  lemma AddKeepsFlagsIff(base: Utxo, cache: CoinsMap, o: OutPoint, coin: Coin)
    requires FlagsSound(base, cache) && !coin.IsSpent() && !coin.IsSkipped()
    requires Add(cache, o, coin, false).Some?
    ensures FlagsSound(base, Add(cache, o, coin, false).value) <==> o !in Overlay(base, cache)
  {
    var added := Add(cache, o, coin, false).value;
    if o in cache && cache[o].isDirty {
      assert o !in Overlay(base, cache);
    } else {
      assert added[o].isFresh;
      assert o in cache ==> o !in base;
    }
    forall p | p in added && p != o
      ensures (!added[p].isDirty ==> Mirrors(base, p, added[p].coin)) && (added[p].isFresh ==> p !in base)
    {
      assert added[p] == cache[p];
    }
  }

  // Such a case: the coin is in the view below and not cached. Spending the entry then drops it,
  // and flushing leaves the coin unspent below.
  lemma HiddenCoinIsMarkedFresh(o: OutPoint, coin: Coin)
    requires !coin.IsSpent() && !coin.IsSkipped()
    ensures FlagsSound(map[o := coin], map[])
    ensures
      var added := Add(map[], o, coin, false);
      && added.Some?
      && !FlagsSound(map[o := coin], added.value)
      && BatchWrite(map[], Spend(added.value, o)) == map[]
  {
    var base: Utxo := map[o := coin];
    assert Overlay(base, map[]) == base;
    AddKeepsFlagsIff(base, map[], o, coin);
    var added := Add(map[], o, coin, false).value;
    assert Spend(added, o) == map[];
  }

  lemma AddWithOverwriteKeepsFlags(base: Utxo, cache: CoinsMap, o: OutPoint, coin: Coin)
    requires FlagsSound(base, cache) && !coin.IsSpent()
    ensures Add(cache, o, coin, true).Some?
    ensures FlagsSound(base, Add(cache, o, coin, true).value)
  {
  }

  // The throw is reached exactly when an unspent coin is cached there and no overwrite is announced.
  lemma AddThrowsIff(base: Utxo, cache: CoinsMap, o: OutPoint, coin: Coin, possibleOverwrite: bool)
    requires !coin.IsSkipped()
    ensures Add(cache, o, coin, possibleOverwrite).None? <==>
            !possibleOverwrite && o in cache && o in Overlay(base, cache)
  {
  }

  // What a layer shows at one outpoint.
  ghost function Shown(below: Option<Coin>, entry: Option<CacheEntry>): Option<Coin> {
    match entry
    case None => below
    case Some(e) => if e.coin.IsSpent() then None else Some(e.coin)
  }

  // The flags of one entry are sound over what is shown below it.
  ghost predicate EntrySound(below: Option<Coin>, entry: Option<CacheEntry>) {
    entry.Some? ==>
      && (!entry.value.isDirty ==> Shown(below, entry) == below)
      && (entry.value.isFresh ==> below.None?)
  }

  lemma OverlayAt(base: Utxo, cache: CoinsMap, o: OutPoint)
    ensures Lookup(Overlay(base, cache), o) == Shown(Lookup(base, o), Lookup(cache, o))
  {
  }

  lemma FlagsSoundAt(base: Utxo, cache: CoinsMap, o: OutPoint)
    requires FlagsSound(base, cache)
    ensures EntrySound(Lookup(base, o), Lookup(cache, o))
  {
  }

  // One iteration of BatchWrite, entry by entry.
  lemma MergeComposes(grand: Option<Coin>, entry: Option<CacheEntry>, child: CacheEntry)
    requires EntrySound(grand, entry)
    requires EntrySound(Shown(grand, entry), Some(child))
    ensures !Merge(entry, child).Misapplied?
    ensures
      var merged := match Merge(entry, child) { case Write(e) => Some(e) case Drop => None case _ => entry };
      && EntrySound(grand, merged)
      && Shown(grand, merged) == Shown(Shown(grand, entry), Some(child))
  {
  }

  lemma MergedEntryComposes(grand: Utxo, cache: CoinsMap, child: CoinsMap, o: OutPoint)
    requires FlagsSound(grand, cache)
    requires FlagsSound(Overlay(grand, cache), child)
    ensures o in child ==> !Merge(Lookup(cache, o), child[o]).Misapplied?
    ensures EntrySound(Lookup(grand, o), MergedEntry(cache, child, o))
    ensures Shown(Lookup(grand, o), MergedEntry(cache, child, o))
         == Lookup(Overlay(Overlay(grand, cache), child), o)
  {
    FlagsSoundAt(grand, cache, o);
    FlagsSoundAt(Overlay(grand, cache), child, o);
    OverlayAt(grand, cache, o);
    OverlayAt(Overlay(grand, cache), child, o);
    if o in child {
      MergeComposes(Lookup(grand, o), Lookup(cache, o), child[o]);
    }
  }

  lemma BatchWriteAt(cache: CoinsMap, child: CoinsMap, o: OutPoint)
    ensures Lookup(BatchWrite(cache, child), o) == MergedEntry(cache, child, o)
  {
  }

  // The heart of the cache: writing a child layer into its parent composes the two.
  lemma BatchWriteComposes(grand: Utxo, cache: CoinsMap, child: CoinsMap)
    requires FlagsSound(grand, cache)
    requires FlagsSound(Overlay(grand, cache), child)
    ensures !FreshMisapplied(cache, child)
    ensures FlagsSound(grand, BatchWrite(cache, child))
    ensures Overlay(grand, BatchWrite(cache, child)) == Overlay(Overlay(grand, cache), child)
  {
    var merged := BatchWrite(cache, child);
    forall o
      ensures o in child ==> !Merge(Lookup(cache, o), child[o]).Misapplied?
      ensures EntrySound(Lookup(grand, o), Lookup(merged, o))
      ensures Lookup(Overlay(grand, merged), o) == Lookup(Overlay(Overlay(grand, cache), child), o)
    {
      MergedEntryComposes(grand, cache, child, o);
      BatchWriteAt(cache, child, o);
      OverlayAt(grand, merged, o);
    }
    SameLookups(Overlay(grand, merged), Overlay(Overlay(grand, cache), child));
    forall o | o in merged
      ensures !merged[o].isDirty ==> Mirrors(grand, o, merged[o].coin)
      ensures merged[o].isFresh ==> o !in grand
    {
      assert EntrySound(Lookup(grand, o), Lookup(merged, o));
    }
  }

  lemma SameLookups(a: Utxo, b: Utxo)
    requires forall o :: Lookup(a, o) == Lookup(b, o)
    ensures a == b
  {
    forall o
      ensures o in a <==> o in b
      ensures o in a ==> a[o] == b[o]
    {
      assert Lookup(a, o) == Lookup(b, o);
    }
  }

  // ------------------------------------------------------------ memory account

  // memusage::DynamicUsage of the cached scripts, for any usage function.
  ghost function TotalUsage(usage: seq<bv8> -> nat, cache: CoinsMap): nat
    decreases |cache|
  {
    if cache == map[] then 0
    else
      var o :| o in cache;
      usage(cache[o].coin.out.scriptPubKey) + TotalUsage(usage, cache - {o})
  }

  // The account does not depend on the order in which entries are visited.
  lemma {:induction false} UsageSplits(usage: seq<bv8> -> nat, cache: CoinsMap, o: OutPoint)
    requires o in cache
    ensures TotalUsage(usage, cache)
         == usage(cache[o].coin.out.scriptPubKey) + TotalUsage(usage, cache - {o})
    decreases |cache|
  {
    var p :| p in cache
      && TotalUsage(usage, cache) == usage(cache[p].coin.out.scriptPubKey) + TotalUsage(usage, cache - {p});
    if p != o {
      UsageSplits(usage, cache - {p}, o);
      UsageSplits(usage, cache - {o}, p);
      assert cache - {p} - {o} == cache - {o} - {p};
    }
  }

  lemma UsageUpdates(usage: seq<bv8> -> nat, cache: CoinsMap, o: OutPoint, entry: CacheEntry)
    ensures TotalUsage(usage, cache[o := entry])
         == TotalUsage(usage, cache) + usage(entry.coin.out.scriptPubKey)
            - if o in cache then usage(cache[o].coin.out.scriptPubKey) else 0
  {
    var updated := cache[o := entry];
    UsageSplits(usage, updated, o);
    assert updated - {o} == cache - {o};
    if o in cache {
      UsageSplits(usage, cache, o);
    } else {
      assert cache - {o} == cache;
    }
  }
}
