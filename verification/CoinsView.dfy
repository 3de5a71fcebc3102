/**
 The stack of coin views of src/coins.cpp: caches of any depth over one database.

 Every cache points to the view below it and fills itself even on reads. `Seen` is the
 plain ledger that a whole stack stands for; each operation is specified by what it does
 to that ledger, however the coins are spread over the layers.
 */
module CoinsView {
  import opened Options
  import opened CoinsLayer

  // ------------------------------------------------------ the nullifier layer

  datatype NullifierEntry = NullifierEntry(entered: bool, isDirty: bool)
  type NullifierMap = map<nat, NullifierEntry>

  ghost function OverlayNullifiers(base: set<nat>, cache: NullifierMap): set<nat> {
    set n | n in base + cache.Keys && (n in cache ==> cache[n].entered)
  }

  ghost predicate NullifiersSound(base: set<nat>, cache: NullifierMap) {
    forall n | n in cache && !cache[n].isDirty :: cache[n].entered <==> n in base
  }

  // One iteration of BatchWriteNullifiers.
  function MergeNullifier(parent: Option<NullifierEntry>, child: NullifierEntry): Option<NullifierEntry> {
    if !child.isDirty then parent
    else match parent
      case None => Some(NullifierEntry(child.entered, true))
      case Some(entry) =>
        if entry.entered != child.entered then Some(NullifierEntry(child.entered, true)) else parent
  }

  function MergedNullifier(cache: NullifierMap, child: NullifierMap, n: nat): Option<NullifierEntry> {
    if n in child then MergeNullifier(Lookup(cache, n), child[n]) else Lookup(cache, n)
  }

  lemma NullifierMergeComposes(grand: set<nat>, cache: NullifierMap, child: NullifierMap, merged: NullifierMap)
    requires NullifiersSound(grand, cache)
    requires NullifiersSound(OverlayNullifiers(grand, cache), child)
    requires forall n :: Lookup(merged, n) == MergedNullifier(cache, child, n)
    ensures NullifiersSound(grand, merged)
    ensures OverlayNullifiers(grand, merged) == OverlayNullifiers(OverlayNullifiers(grand, cache), child)
  {
    forall n
      ensures n in merged && !merged[n].isDirty ==> (merged[n].entered <==> n in grand)
      ensures n in OverlayNullifiers(grand, merged) <==>
              n in OverlayNullifiers(OverlayNullifiers(grand, cache), child)
    {
      assert Lookup(merged, n) == MergedNullifier(cache, child, n);
    }
  }

  // ------------------------------------------------------------ the best block

  // A null hash means "ask the view below".
  function BestBlock(hashBlock: nat, below: nat): nat {
    if hashBlock == 0 then below else hashBlock
  }

  // BatchWrite copies the child's hashBlock even when it is null. What the parent then
  // reports equals what the child reported exactly when the child's hash was set, or the
  // parent had nothing of its own to lose.
  lemma BestBlockKeptIff(childHash: nat, parentHash: nat, grand: nat)
    ensures BestBlock(childHash, grand) == BestBlock(childHash, BestBlock(parentHash, grand))
       <==> childHash != 0 || parentHash == 0 || parentHash == grand
  {
  }

  // ------------------------------------------------------- the BatchWrite loop

  // The cache after BatchWrite has processed the child's entries outside `rest`.
  ghost predicate PartlyMerged(before: CoinsMap, child: CoinsMap, rest: CoinsMap, cache: CoinsMap) {
    && (forall o | o in rest :: o in child && rest[o] == child[o])
    && (forall o | o in child && o !in rest :: !Merge(Lookup(before, o), child[o]).Misapplied?)
    && (forall o ::
          Lookup(cache, o) == if o in rest then Lookup(before, o) else MergedEntry(before, child, o))
  }

  function MergedAt(cache: CoinsMap, o: OutPoint, entry: CacheEntry): CoinsMap {
    match Merge(Lookup(cache, o), entry)
    case Write(e) => cache[o := e]
    case Drop => cache - {o}
    case _ => cache
  }

  lemma MergeNext(before: CoinsMap, child: CoinsMap, rest: CoinsMap, cache: CoinsMap, o: OutPoint)
    requires PartlyMerged(before, child, rest, cache) && o in rest
    ensures Merge(Lookup(cache, o), rest[o]).Misapplied? ==> FreshMisapplied(before, child)
    ensures !Merge(Lookup(cache, o), rest[o]).Misapplied? ==>
      PartlyMerged(before, child, rest - {o}, MergedAt(cache, o, rest[o]))
  {
    assert Lookup(cache, o) == Lookup(before, o);
    var next := MergedAt(cache, o, rest[o]);
    forall p
      ensures p != o ==> Lookup(next, p) == Lookup(cache, p)
      ensures p == o && !Merge(Lookup(cache, o), rest[o]).Misapplied? ==>
        Lookup(next, p) == MergedEntry(before, child, p)
    {
    }
  }

  lemma MergeDone(before: CoinsMap, child: CoinsMap, cache: CoinsMap)
    requires PartlyMerged(before, child, map[], cache)
    ensures cache == BatchWrite(before, child) && !FreshMisapplied(before, child)
  {
    forall o
      ensures o in cache <==> o in BatchWrite(before, child)
      ensures o in cache ==> cache[o] == BatchWrite(before, child)[o]
    {
      BatchWriteAt(before, child, o);
      assert Lookup(cache, o) == MergedEntry(before, child, o);
    }
  }

  // ---------------------------------------------------------------- the ledger

  datatype Ledger = Ledger(coins: Utxo, nullifiers: set<nat>, bestBlock: nat)

  // What one layer shows over the ledger below it.
  ghost function Through(under: Ledger, coins: CoinsMap, nullifiers: NullifierMap, hashBlock: nat): Ledger {
    Ledger(Overlay(under.coins, coins),
           OverlayNullifiers(under.nullifiers, nullifiers),
           BestBlock(hashBlock, under.bestBlock))
  }

  ghost predicate LayerSound(under: Ledger, coins: CoinsMap, nullifiers: NullifierMap) {
    FlagsSound(under.coins, coins) && NullifiersSound(under.nullifiers, nullifiers)
  }

  lemma EmptyLayerIsTransparent(under: Ledger, hashBlock: nat)
    ensures Through(under, map[], map[], hashBlock) == under.(bestBlock := BestBlock(hashBlock, under.bestBlock))
    ensures LayerSound(under, map[], map[])
  {
    assert Overlay(under.coins, map[]) == under.coins;
    assert OverlayNullifiers(under.nullifiers, map[]) == under.nullifiers;
  }

  lemma NullifierSetOne(base: set<nat>, cache: NullifierMap, n: nat, spent: bool)
    requires NullifiersSound(base, cache)
    ensures NullifiersSound(base, cache[n := NullifierEntry(spent, true)])
    ensures OverlayNullifiers(base, cache[n := NullifierEntry(spent, true)])
         == if spent then OverlayNullifiers(base, cache) + {n} else OverlayNullifiers(base, cache) - {n}
  {
    var updated := OverlayNullifiers(base, cache[n := NullifierEntry(spent, true)]);
    var expected := if spent then OverlayNullifiers(base, cache) + {n} else OverlayNullifiers(base, cache) - {n};
    assert forall k :: k in updated <==> k in expected;
  }

  class CoinsViewDB {
    var coins: Utxo
    var nullifiers: set<nat>
    var bestBlock: nat

    constructor ()
      ensures coins == map[] && nullifiers == {} && bestBlock == 0
    {
      coins, nullifiers, bestBlock := map[], {}, 0;
    }

    ghost function Seen(): Ledger
      reads this
    {
      Ledger(coins, nullifiers, bestBlock)
    }

    // CCoinsViewDB::BatchWrite: only dirty entries reach the database.
    method BatchWrite(mapCoins: CoinsMap, hashBlockIn: nat, mapNullifiers: NullifierMap)
      requires hashBlockIn != 0
      modifies this
      ensures bestBlock == hashBlockIn
      ensures forall o ::
        Lookup(coins, o) ==
          if o in mapCoins && mapCoins[o].isDirty then Shown(None, Some(mapCoins[o])) else Lookup(old(coins), o)
      ensures forall n :: n in nullifiers <==>
        if n in mapNullifiers && mapNullifiers[n].isDirty then mapNullifiers[n].entered else n in old(nullifiers)
    {
      WriteCoins(mapCoins);
      WriteNullifiers(mapNullifiers);
      bestBlock := hashBlockIn;
    }

    method WriteCoins(mapCoins: CoinsMap)
      modifies `coins
      ensures forall o ::
        Lookup(coins, o) ==
          if o in mapCoins && mapCoins[o].isDirty then Shown(None, Some(mapCoins[o])) else Lookup(old(coins), o)
    {
      var rest := mapCoins;
      while rest != map[]
        invariant rest.Keys <= mapCoins.Keys && forall o | o in rest :: rest[o] == mapCoins[o]
        invariant forall o ::
          Lookup(coins, o) ==
            if o in mapCoins && o !in rest && mapCoins[o].isDirty
          then Shown(None, Some(mapCoins[o])) else Lookup(old(coins), o)
        decreases |rest|
      {
        var o :| o in rest;
        if rest[o].isDirty {
          coins := if rest[o].coin.IsSpent() then coins - {o} else coins[o := rest[o].coin];
        }
        rest := rest - {o};
      }
    }

    method WriteNullifiers(mapNullifiers: NullifierMap)
      modifies `nullifiers
      ensures forall n :: n in nullifiers <==>
        if n in mapNullifiers && mapNullifiers[n].isDirty then mapNullifiers[n].entered else n in old(nullifiers)
    {
      var left := mapNullifiers;
      while left != map[]
        invariant left.Keys <= mapNullifiers.Keys && forall n | n in left :: left[n] == mapNullifiers[n]
        invariant forall n :: n in nullifiers <==>
          if n in mapNullifiers && n !in left && mapNullifiers[n].isDirty
          then mapNullifiers[n].entered else n in old(nullifiers)
        decreases |left|
      {
        var n :| n in left;
        if left[n].isDirty {
          nullifiers := if left[n].entered then nullifiers + {n} else nullifiers - {n};
        }
        left := left - {n};
      }
    }
  }

  // Writing only the dirty entries of a sound layer yields the layer's whole view.
  lemma DirtyEntriesSuffice(base: Utxo, child: CoinsMap, written: Utxo)
    requires FlagsSound(base, child)
    requires forall o ::
      Lookup(written, o) ==
        if o in child && child[o].isDirty then Shown(None, Some(child[o])) else Lookup(base, o)
    ensures written == Overlay(base, child)
  {
    forall o
      ensures Lookup(written, o) == Lookup(Overlay(base, child), o)
    {
      OverlayAt(base, child, o);
      FlagsSoundAt(base, child, o);
    }
    SameLookups(written, Overlay(base, child));
  }

  lemma OverlayAllUnspent(base: Utxo, child: CoinsMap)
    requires AllUnspent(base)
    ensures AllUnspent(Overlay(base, child))
  {
  }

  lemma EmptyUsage(usage: seq<bv8> -> nat)
    ensures TotalUsage(usage, map[]) == 0
  {
  }

  lemma DirtyNullifiersSuffice(base: set<nat>, child: NullifierMap, written: set<nat>)
    requires NullifiersSound(base, child)
    requires forall n :: n in written <==> if n in child && child[n].isDirty then child[n].entered else n in base
    ensures written == OverlayNullifiers(base, child)
  {
  }

  datatype Backend = Database(db: CoinsViewDB) | Cached(below: CoinsViewCache)

  ghost function BackendRepr(base: Backend): set<object> {
    match base
    case Database(db) => {db}
    case Cached(below) => below.Repr
  }

  class CoinsViewCache {
    const base: Backend
    // memusage::DynamicUsage of a script
    const scriptUsage: seq<bv8> -> nat
    ghost const Repr: set<object>

    var hashBlock: nat
    var cacheCoins: CoinsMap
    var cacheNullifiers: NullifierMap
    var cachedCoinsUsage: int

    // The chain of `base` pointers is finite and ends in a database.
    ghost predicate Shape()
      decreases Repr
    {
      && this in Repr
      && scriptUsage([]) == 0
      && match base
         case Database(db) => Repr == {this, db}
         case Cached(below) => this !in below.Repr && Repr == below.Repr + {this} && below.Shape()
    }

    ghost function BaseSeen(): Ledger
      requires Shape()
      reads Repr - {this}
      decreases Repr, 0
    {
      match base
      case Database(db) => db.Seen()
      case Cached(below) => below.Seen()
    }

    // The plain ledger this stack of views stands for.
    ghost function Seen(): Ledger
      requires Shape()
      reads Repr
      decreases Repr, 1
    {
      Through(BaseSeen(), cacheCoins, cacheNullifiers, hashBlock)
    }

    ghost predicate BaseValid()
      requires Shape()
      reads Repr - {this}
      decreases Repr, 0
    {
      match base
      case Database(db) => AllUnspent(db.coins)
      case Cached(below) => below.Valid()
    }

    ghost predicate Valid()
      reads Repr
      decreases Repr, 1
    {
      && Shape()
      && BaseValid()
      && LayerSound(BaseSeen(), cacheCoins, cacheNullifiers)
      && cachedCoinsUsage == TotalUsage(scriptUsage, cacheCoins)
    }

    constructor (base: Backend, scriptUsage: seq<bv8> -> nat)
      requires scriptUsage([]) == 0
      requires match base case Database(db) => AllUnspent(db.coins) case Cached(below) => below.Valid()
      ensures Valid() && this.base == base && this.scriptUsage == scriptUsage && hashBlock == 0
      ensures Repr == {this} + BackendRepr(base)
      ensures match base
        case Database(db) => Seen() == db.Seen()
        case Cached(below) => Seen() == below.Seen()
    {
      this.base := base;
      this.scriptUsage := scriptUsage;
      Repr := {this} + BackendRepr(base);
      hashBlock, cacheCoins, cacheNullifiers, cachedCoinsUsage := 0, map[], map[], 0;
      new;
      EmptyLayerIsTransparent(BaseSeen(), 0);
    }

    // The answer of the view below; caches below may fill themselves.
    method GetBaseCoin(o: OutPoint) returns (answer: Option<Coin>)
      requires Valid()
      modifies Repr - {this}
      ensures Valid() && BaseSeen() == old(BaseSeen())
      ensures Answers(BaseSeen().coins, o, answer)
      decreases Repr, 0
    {
      match base {
        case Database(db) =>
          answer := Lookup(db.coins, o);
        case Cached(below) =>
          answer := below.GetCoin(o);
      }
    }

    method FetchCoin(o: OutPoint) returns (found: bool)
      requires Valid()
      modifies Repr
      ensures Valid() && Seen() == old(Seen()) && BaseSeen() == old(BaseSeen())
      ensures unchanged(`hashBlock) && unchanged(`cacheNullifiers)
      ensures found <==> o in cacheCoins
      ensures Answers(Seen().coins, o, if found then Some(cacheCoins[o].coin) else None)
      ensures o !in cacheCoins ==> o !in BaseSeen().coins
      decreases Repr, 1
    {
      if o in cacheCoins {
        return true;
      }
      var answer := GetBaseCoin(o);
      FetchIsInvisible(BaseSeen().coins, cacheCoins, o, answer);
      if answer.None? {
        return false;
      }
      var entry := CacheEntry(answer.value, false, answer.value.IsSpent());
      UsageUpdates(scriptUsage, cacheCoins, o, entry);
      cacheCoins := cacheCoins[o := entry];
      cachedCoinsUsage := cachedCoinsUsage + scriptUsage(answer.value.out.scriptPubKey);
      found := true;
    }

    // True with a coin, possibly a spent one, or false where nothing unspent is visible.
    method GetCoin(o: OutPoint) returns (answer: Option<Coin>)
      requires Valid()
      modifies Repr
      ensures Valid() && Seen() == old(Seen())
      ensures Answers(Seen().coins, o, answer)
      decreases Repr, 2
    {
      var found := FetchCoin(o);
      answer := if found then Some(cacheCoins[o].coin) else None;
    }

    method HaveCoin(o: OutPoint) returns (have: bool)
      requires Valid()
      modifies Repr
      ensures Valid() && Seen() == old(Seen())
      ensures have <==> o in Seen().coins
    {
      var found := FetchCoin(o);
      have := found && !cacheCoins[o].coin.IsSpent();
    }

    // The visible coin, or a spent one where none is visible.
    method AccessCoin(o: OutPoint) returns (coin: Coin)
      requires Valid()
      modifies Repr
      ensures Valid() && Seen() == old(Seen())
      ensures Mirrors(Seen().coins, o, coin)
    {
      var found := FetchCoin(o);
      coin := if found then cacheCoins[o].coin else CLEARED_COIN;
    }

    // Removes exactly one coin from the ledger and hands it out.
    method SpendCoin(o: OutPoint) returns (moveout: Option<Coin>)
      requires Valid()
      modifies Repr
      ensures Valid() && BaseSeen() == old(BaseSeen())
      ensures Seen() == old(Seen()).(coins := old(Seen()).coins - {o})
      ensures Answers(old(Seen()).coins, o, moveout)
    {
      hide TotalUsage, Overlay, FlagsSound;
      var found := FetchCoin(o);
      SpendRemovesOne(BaseSeen().coins, cacheCoins, o);
      if !found {
        return None;
      }
      moveout := Some(cacheCoins[o].coin);
      cachedCoinsUsage := cachedCoinsUsage - scriptUsage(cacheCoins[o].coin.out.scriptPubKey);
      if cacheCoins[o].isFresh {
        UsageSplits(scriptUsage, cacheCoins, o);
        cacheCoins := cacheCoins - {o};
      } else {
        var entry := CacheEntry(CLEARED_COIN, true, false);
        UsageUpdates(scriptUsage, cacheCoins, o, entry);
        cacheCoins := cacheCoins[o := entry];
      }
    }

    // Sets exactly one coin, unless the output is of a kind that is never stored.
    // A throw leaves the coins alone but has already taken the entry off the account.
    method AddCoin(o: OutPoint, coin: Coin, possibleOverwrite: bool) returns (threw: bool)
      requires Valid() && !coin.IsSpent()
      modifies this
      ensures Shape() && BaseSeen() == old(BaseSeen())
      ensures threw <==> !coin.IsSkipped() && !possibleOverwrite && o in old(cacheCoins) && o in old(Seen()).coins
      ensures threw ==>
        && Seen() == old(Seen())
        && cachedCoinsUsage == old(cachedCoinsUsage) - scriptUsage(old(Seen()).coins[o].out.scriptPubKey)
      ensures !threw ==>
        Seen() == if coin.IsSkipped() then old(Seen()) else old(Seen()).(coins := old(Seen()).coins[o := coin])
      ensures !threw ==> (Valid() <==> coin.IsSkipped() || possibleOverwrite || o !in old(Seen()).coins)
    {
      hide Overlay, FlagsSound, TotalUsage, OverlayNullifiers, NullifiersSound, AllUnspent, Coin.IsSkipped;
      if coin.IsSkipped() {
        return false;
      }
      AddThrowsIff(BaseSeen().coins, cacheCoins, o, coin, possibleOverwrite);
      OverlayAt(BaseSeen().coins, cacheCoins, o);
      var entry := if o in cacheCoins then cacheCoins[o] else CacheEntry(CLEARED_COIN, false, false);
      if o in cacheCoins {
        cachedCoinsUsage := cachedCoinsUsage - scriptUsage(entry.coin.out.scriptPubKey);
      }
      var isFresh := false;
      if !possibleOverwrite {
        if !entry.coin.IsSpent() {
          return true;
        }
        isFresh := !entry.isDirty;
      }
      entry := CacheEntry(coin, true, entry.isFresh || isFresh);
      UsageUpdates(scriptUsage, cacheCoins, o, entry);
      AddSetsOne(BaseSeen().coins, cacheCoins, o, coin, possibleOverwrite);
      if possibleOverwrite {
        AddWithOverwriteKeepsFlags(BaseSeen().coins, cacheCoins, o, coin);
      } else {
        AddKeepsFlagsIff(BaseSeen().coins, cacheCoins, o, coin);
      }
      cacheCoins := cacheCoins[o := entry];
      cachedCoinsUsage := cachedCoinsUsage + scriptUsage(coin.out.scriptPubKey);
      threw := false;
    }

    method Uncache(o: OutPoint)
      requires Valid()
      modifies this
      ensures Valid() && Seen() == old(Seen()) && BaseSeen() == old(BaseSeen())
      ensures cacheCoins == CoinsLayer.Uncache(old(cacheCoins), o)
    {
      UncacheIsInvisible(BaseSeen().coins, cacheCoins, o);
      if o in cacheCoins && !cacheCoins[o].isDirty && !cacheCoins[o].isFresh {
        UsageSplits(scriptUsage, cacheCoins, o);
        cachedCoinsUsage := cachedCoinsUsage - scriptUsage(cacheCoins[o].coin.out.scriptPubKey);
        cacheCoins := cacheCoins - {o};
      }
    }

    method GetNullifier(n: nat) returns (spent: bool)
      requires Valid()
      modifies Repr
      ensures Valid() && Seen() == old(Seen())
      ensures spent <==> n in Seen().nullifiers
      decreases Repr
    {
      hide TotalUsage, Overlay, FlagsSound, AllUnspent;
      if n in cacheNullifiers {
        return cacheNullifiers[n].entered;
      }
      match base {
        case Database(db) => spent := n in db.nullifiers;
        case Cached(below) => spent := below.GetNullifier(n);
      }
      cacheNullifiers := cacheNullifiers[n := NullifierEntry(spent, false)];
      assert Seen().nullifiers == old(Seen()).nullifiers;
    }

    // Marks the nullifiers of one transaction as spent or unspent.
    method SetNullifiers(nullifiers: seq<nat>, spent: bool)
      requires Valid()
      modifies this
      ensures Valid() && BaseSeen() == old(BaseSeen())
      ensures Seen() == old(Seen()).(nullifiers :=
        if spent then old(Seen()).nullifiers + (set n | n in nullifiers)
        else old(Seen()).nullifiers - (set n | n in nullifiers))
    {
      for i := 0 to |nullifiers|
        invariant Valid() && BaseSeen() == old(BaseSeen())
        invariant unchanged(`cacheCoins) && unchanged(`hashBlock)
        invariant forall n :: n in Seen().nullifiers <==>
          if n in nullifiers[..i] then spent else n in old(Seen()).nullifiers
      {
        NullifierSetOne(BaseSeen().nullifiers, cacheNullifiers, nullifiers[i], spent);
        cacheNullifiers := cacheNullifiers[nullifiers[i] := NullifierEntry(spent, true)];
      }
    }

    method GetBestBlock() returns (best: nat)
      requires Valid()
      modifies Repr
      ensures Valid() && Seen() == old(Seen()) && best == Seen().bestBlock
      decreases Repr
    {
      if hashBlock == 0 {
        match base {
          case Database(db) => hashBlock := db.bestBlock;
          case Cached(below) =>
            var b := below.GetBestBlock();
            hashBlock := b;
        }
      }
      best := hashBlock;
    }

    method SetBestBlock(hashBlockIn: nat)
      requires Valid()
      modifies this
      ensures Valid() && BaseSeen() == old(BaseSeen())
      ensures Seen() == old(Seen()).(bestBlock := if hashBlockIn == 0 then BaseSeen().bestBlock else hashBlockIn)
      ensures hashBlock == hashBlockIn
    {
      hashBlock := hashBlockIn;
    }

    // The loop of BatchWrite over the coins of a child; false is the logic_error.
    method BatchWriteCoins(mapCoins: CoinsMap) returns (ok: bool)
      requires cachedCoinsUsage == TotalUsage(scriptUsage, cacheCoins)
      modifies this
      ensures ok <==> !FreshMisapplied(old(cacheCoins), mapCoins)
      ensures ok ==> cacheCoins == BatchWrite(old(cacheCoins), mapCoins)
      ensures cachedCoinsUsage == TotalUsage(scriptUsage, cacheCoins)
      ensures unchanged(`cacheNullifiers) && unchanged(`hashBlock)
    {
      var rest := mapCoins;
      while rest != map[]
        invariant PartlyMerged(old(cacheCoins), mapCoins, rest, cacheCoins)
        invariant cachedCoinsUsage == TotalUsage(scriptUsage, cacheCoins)
        invariant unchanged(`cacheNullifiers) && unchanged(`hashBlock)
        decreases |rest|
      {
        var o :| o in rest;
        MergeNext(old(cacheCoins), mapCoins, rest, cacheCoins, o);
        ok := MergeOne(o, rest[o]);
        if !ok {
          return;
        }
        rest := rest - {o};
      }
      ok := true;
      MergeDone(old(cacheCoins), mapCoins, cacheCoins);
    }

    // One entry of a child against ours.
    method MergeOne(o: OutPoint, entry: CacheEntry) returns (ok: bool)
      requires cachedCoinsUsage == TotalUsage(scriptUsage, cacheCoins)
      modifies this
      ensures ok <==> !Merge(Lookup(old(cacheCoins), o), entry).Misapplied?
      ensures cacheCoins == MergedAt(old(cacheCoins), o, entry)
      ensures cachedCoinsUsage == TotalUsage(scriptUsage, cacheCoins)
      ensures unchanged(`cacheNullifiers) && unchanged(`hashBlock)
    {
      ok := true;
      if entry.isDirty {
        if o !in cacheCoins {
          if !(entry.isFresh && entry.coin.IsSpent()) {
            var created := CacheEntry(entry.coin, true, entry.isFresh);
            UsageUpdates(scriptUsage, cacheCoins, o, created);
            cacheCoins := cacheCoins[o := created];
            cachedCoinsUsage := cachedCoinsUsage + scriptUsage(entry.coin.out.scriptPubKey);
          }
        } else {
          if entry.isFresh && !cacheCoins[o].coin.IsSpent() {
            return false;
          }
          cachedCoinsUsage := cachedCoinsUsage - scriptUsage(cacheCoins[o].coin.out.scriptPubKey);
          if cacheCoins[o].isFresh && entry.coin.IsSpent() {
            UsageSplits(scriptUsage, cacheCoins, o);
            cacheCoins := cacheCoins - {o};
          } else {
            var modified := CacheEntry(entry.coin, true, cacheCoins[o].isFresh);
            UsageUpdates(scriptUsage, cacheCoins, o, modified);
            cacheCoins := cacheCoins[o := modified];
            cachedCoinsUsage := cachedCoinsUsage + scriptUsage(entry.coin.out.scriptPubKey);
          }
        }
      }
    }

    method BatchWriteNullifiers(mapNullifiers: NullifierMap)
      modifies this
      ensures forall n :: Lookup(cacheNullifiers, n) == MergedNullifier(old(cacheNullifiers), mapNullifiers, n)
      ensures unchanged(`cacheCoins) && unchanged(`hashBlock) && unchanged(`cachedCoinsUsage)
    {
      var rest := mapNullifiers;
      while rest != map[]
        invariant rest.Keys <= mapNullifiers.Keys && forall n | n in rest :: rest[n] == mapNullifiers[n]
        invariant forall n ::
          Lookup(cacheNullifiers, n) ==
            if n in rest then Lookup(old(cacheNullifiers), n) else MergedNullifier(old(cacheNullifiers), mapNullifiers, n)
        invariant unchanged(`cacheCoins) && unchanged(`hashBlock) && unchanged(`cachedCoinsUsage)
        decreases |rest|
      {
        var n :| n in rest;
        assert Lookup(cacheNullifiers, n) == Lookup(old(cacheNullifiers), n);
        if rest[n].isDirty {
          if n !in cacheNullifiers || cacheNullifiers[n].entered != rest[n].entered {
            cacheNullifiers := cacheNullifiers[n := NullifierEntry(rest[n].entered, true)];
          }
        }
        rest := rest - {n};
      }
    }

    // Takes over everything a sound child layer holds; false is the logic_error.
    method BatchWriteFrom(mapCoins: CoinsMap, hashBlockIn: nat, mapNullifiers: NullifierMap) returns (ok: bool)
      requires Valid()
      modifies this
      ensures ok <==> !FreshMisapplied(old(cacheCoins), mapCoins)
      ensures FlagsSound(old(Seen()).coins, mapCoins) && NullifiersSound(old(Seen()).nullifiers, mapNullifiers) ==>
        && ok && Valid() && BaseSeen() == old(BaseSeen())
        && Seen() == Ledger(Overlay(old(Seen()).coins, mapCoins),
                            OverlayNullifiers(old(Seen()).nullifiers, mapNullifiers),
                            BestBlock(hashBlockIn, old(BaseSeen()).bestBlock))
    {
      ok := BatchWriteCoins(mapCoins);
      if ok {
        BatchWriteNullifiers(mapNullifiers);
        hashBlock := hashBlockIn;
      }
      if FlagsSound(old(Seen()).coins, mapCoins) && NullifiersSound(old(Seen()).nullifiers, mapNullifiers) {
        BatchWriteComposes(BaseSeen().coins, old(cacheCoins), mapCoins);
        NullifierMergeComposes(BaseSeen().nullifiers, old(cacheNullifiers), mapNullifiers, cacheNullifiers);
      }
    }

    // Flush never throws on a sound stack, leaves what is seen here alone, and makes the
    // view below show the same coins and nullifiers.
    method Flush() returns (ok: bool)
      requires Valid()
      requires base.Database? ==> hashBlock != 0
      modifies Repr
      ensures ok && Valid()
      ensures Seen().coins == old(Seen()).coins && BaseSeen().coins == old(Seen()).coins
      ensures Seen().nullifiers == old(Seen()).nullifiers && BaseSeen().nullifiers == old(Seen()).nullifiers
      ensures old(hashBlock) != 0 ==> Seen().bestBlock == old(Seen()).bestBlock == BaseSeen().bestBlock
      ensures base.Cached? ==> BaseSeen().bestBlock == BestBlock(old(hashBlock), old(base.below.BaseSeen().bestBlock))
      ensures base.Cached? ==>
        (Seen().bestBlock == old(Seen()).bestBlock <==>
          || old(hashBlock) != 0
          || old(base.below.hashBlock) == 0
          || old(base.below.hashBlock) == old(base.below.BaseSeen()).bestBlock)
      ensures cacheCoins == map[] && cacheNullifiers == map[] && cachedCoinsUsage == 0 && unchanged(`hashBlock)
    {
      hide TotalUsage, Overlay, OverlayNullifiers, FlagsSound, NullifiersSound, AllUnspent;
      EmptyUsage(scriptUsage);
      match base {
        case Database(db) =>
          db.BatchWrite(cacheCoins, hashBlock, cacheNullifiers);
          DirtyEntriesSuffice(old(db.coins), cacheCoins, db.coins);
          DirtyNullifiersSuffice(old(db.nullifiers), cacheNullifiers, db.nullifiers);
          OverlayAllUnspent(old(db.coins), cacheCoins);
          ok := true;
        case Cached(below) =>
          assert below.Shape();
          BestBlockKeptIff(hashBlock, below.hashBlock, below.BaseSeen().bestBlock);
          ok := below.BatchWriteFrom(cacheCoins, hashBlock, cacheNullifiers);
      }
      cacheCoins, cacheNullifiers, cachedCoinsUsage := map[], map[], 0;
      EmptyLayerIsTransparent(BaseSeen(), hashBlock);
    }
  }

  // A cache that was never asked for its best block, over one that has one of its own.
  method Stacked() returns (child: CoinsViewCache)
    ensures fresh(child.Repr) && child.Valid() && child.base.Cached?
    ensures child.hashBlock == 0 && child.base.below.hashBlock == 7
    ensures child.base.below.BaseSeen().bestBlock == 0 && child.Seen().bestBlock == 7
  {
    hide TotalUsage, Overlay, OverlayNullifiers, FlagsSound, NullifiersSound, AllUnspent;
    var db := new CoinsViewDB();
    NoCoins();
    var below := new CoinsViewCache(Database(db), _ => 0);
    below.SetBestBlock(7);
    child := new CoinsViewCache(Cached(below), _ => 0);
  }

  lemma NoCoins()
    ensures AllUnspent(map[])
  {
  }

  // Flushing it wipes out the best block that was seen through it.
  method FlushLosesBestBlock() returns (child: CoinsViewCache, ghost before: Ledger)
    ensures child.Valid() && before.bestBlock == 7 && child.Seen().bestBlock == 0
  {
    hide TotalUsage, Overlay, OverlayNullifiers, FlagsSound, NullifiersSound, AllUnspent;
    child := Stacked();
    before := child.Seen();
    var ok := child.Flush();
  }
}
