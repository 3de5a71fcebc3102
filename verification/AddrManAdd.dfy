/**
 Add_ of the address manager (src/addrman.cpp): it keeps the invariant, and what it does
 to the addresses known.
 */
module AddrManAdd {
  import Arith
  import opened AddrManState
  import opened AddrManSteps
  import opened AddrManOps

  const DAY := 24 * 60 * 60

  // Assignment of a 64-bit time to the 32-bit field CAddress::nTime.
  function Uint32(x: int): (r: nat)
    ensures r < 0x1_0000_0000
  {
    x % 0x1_0000_0000
  }

  // No penalty for an address that announces itself.
  function Penalty(address: Address, source: NetAddr, nTimePenalty: int): int {
    if address.service.addr == source then 0 else nTimePenalty
  }

  // ServiceFlags are added, never removed.
  function Merged(a: bv64, b: bv64): bv64 {
    a | b
  }

  // What Add_ does to the entry of an address it already knows.
  function Refreshed(info: Info, address: Address, penalty: int, now: int): Info {
    var interval := if now - address.nTime < DAY then 60 * 60 else DAY;
    var nTime :=
      if address.nTime != 0 && (info.address.nTime == 0 || info.address.nTime < address.nTime - interval - penalty)
      then Uint32(Arith.Max(0, address.nTime - penalty)) else info.address.nTime;
    info.(address := info.address.(nTime := nTime, nServices := Merged(info.address.nServices, address.nServices)))
  }

  // The entry is not given another reference: nothing new, tried, or already eight times there.
  predicate Saturated(info: Info, address: Address) {
    || address.nTime == 0
    || (info.address.nTime != 0 && address.nTime <= info.address.nTime)
    || info.fInTried
    || info.nRefCount == NEW_BUCKETS_PER_ADDRESS
  }

  // 2^nRefCount, computed by a loop in the source.
  function Factor(nRefCount: int): (f: nat)
    ensures f >= 1
    decreases nRefCount
  {
    if nRefCount <= 0 then 1 else 2 * Factor(nRefCount - 1)
  }

  // The stochastic test; `dice` stands for the random generator.
  predicate Unlucky(nRefCount: int, dice: nat) {
    Factor(nRefCount) > 1 && dice % Factor(nRefCount) != 0
  }

  function Created(s: State, address: Address, source: NetAddr, penalty: int): State {
    var nTime := Uint32(Arith.Max(0, address.nTime - penalty));
    var r := Create(s, address.(nTime := nTime), source);
    r.(nNew := r.nNew + 1)
  }

  // The existing occupant of a new slot gives way.
  predicate GivesWay(existing: Info, info: Info, now: int) {
    existing.IsTerrible(now) || (existing.nRefCount > 1 && info.nRefCount == 0)
  }

  // What the asserts on the way to a new slot ask for.
  ghost predicate Insertable(s: State, id: int, slot: Slot) {
    && id in s.mapInfo && !s.mapInfo[id].fInTried
    && RandomLinked(s)
    && (slot in s.vvNew && s.vvNew[slot] != id ==> CanUnref(s, s.vvNew[slot]))
    && (!Holds(s.vvNew, slot, id) ==> id in ClearNew(s, slot).mapInfo)
  }

  // The second half of Add_: one more reference in the bucket chosen by the source.
  ghost function Insert(s: State, id: int, slot: Slot, now: int): State
    requires Insertable(s, id, slot)
  {
    if Holds(s.vvNew, slot, id) then s
    else if slot !in s.vvNew || GivesWay(s.mapInfo[s.vvNew[slot]], s.mapInfo[id], now)
    then AddRef(ClearNew(s, slot), id, slot)
    else if s.mapInfo[id].nRefCount == 0 then Delete(s, id)
    else s
  }

  lemma InsertKeeps(net: Network, s: State, id: int, slot: Slot, now: int, pending: set<int>)
    requires Between(net, s, pending, 0) && pending <= {id}
    requires id in s.mapInfo && !s.mapInfo[id].fInTried && s.mapInfo[id].nRefCount < NEW_BUCKETS_PER_ADDRESS
    requires id in pending ==> s.mapInfo[id].nRefCount == 0
    requires slot.bucket < NEW_BUCKET_COUNT && slot == NewSlotIn(net, s.nKey, s.mapInfo[id].Service(), slot.bucket)
    ensures Insertable(s, id, slot)
    ensures Between(net, Insert(s, id, slot, now), {}, 0)
  {
    hide AllSettled;
    OwnSlotSettled(net, s, id, slot, pending);
    if !Holds(s.vvNew, slot, id) {
      ClearForInsert(net, s, id, slot, pending);
      var cleared := ClearNew(s, slot);
      if slot !in s.vvNew || GivesWay(s.mapInfo[s.vvNew[slot]], s.mapInfo[id], now) {
        AddRefBetween(net, cleared, id, slot, pending, 0);
        assert pending - {id} == {};
      } else if s.mapInfo[id].nRefCount == 0 {
        DeleteBetween(net, s, id, pending, 0);
        assert pending - {id} == {};
      } else {
        assert pending == {};
      }
    }
  }

  lemma OwnSlotSettled(net: Network, s: State, id: int, slot: Slot, pending: set<int>)
    requires Between(net, s, pending, 0) && pending <= {id} && id in s.mapInfo
    requires id in pending ==> s.mapInfo[id].nRefCount == 0
    ensures Holds(s.vvNew, slot, id) ==> pending == {}
    ensures s.mapInfo[id].nRefCount == 0 && !s.mapInfo[id].fInTried ==> id in pending
  {
    if Holds(s.vvNew, slot, id) {
      assert slot in Refs(s.vvNew, id);
    }
    assert id !in pending ==> Settled(net, s, id);
  }

  lemma ClearForInsert(net: Network, s: State, id: int, slot: Slot, pending: set<int>)
    requires Between(net, s, pending, 0)
    requires id in s.mapInfo && !s.mapInfo[id].fInTried && !Holds(s.vvNew, slot, id)
    requires slot.bucket < NEW_BUCKET_COUNT && slot == NewSlotIn(net, s.nKey, s.mapInfo[id].Service(), slot.bucket)
    ensures RandomLinked(s) && (slot in s.vvNew ==> CanUnref(s, s.vvNew[slot]))
    ensures
      var r := ClearNew(s, slot);
      && Between(net, r, pending, 0)
      && CanRefer(net, r, id, slot)
      && Stats(r.mapInfo[id]) == Stats(s.mapInfo[id])
  {
    assert Coherent(net, s) && RandomLinked(s);
    hide Between, Coherent, RandomLinked, NewSlotIn;
    if slot in s.vvNew {
      CanClear(net, s, slot);
      ClearNewShape(s, slot);
      assert id in s.mapInfo.Keys - {s.vvNew[slot]};
    }
    ClearNewBetween(net, s, slot, pending, 0);
  }

  // Apart from the new table and its bookkeeping, inserting changes nothing, and it forgets
  // at most the id itself or a terrible occupant whose only reference was in the slot.
  lemma InsertEffect(net: Network, s: State, id: int, slot: Slot, now: int)
    requires Insertable(s, id, slot)
    ensures
      var r := Insert(s, id, slot, now);
      && r == s.(mapInfo := r.mapInfo, mapAddr := r.mapAddr, vRandom := r.vRandom, nNew := r.nNew, vvNew := r.vvNew)
      && RecordsKept(s, r)
      && (forall k | k in s.mapInfo && k !in r.mapInfo && k != id ::
            Holds(s.vvNew, slot, k) && s.mapInfo[k].nRefCount == 1 && GivesWay(s.mapInfo[k], s.mapInfo[id], now))
      && (id in r.mapInfo <==>
            || s.mapInfo[id].nRefCount != 0 || slot !in s.vvNew || s.vvNew[slot] == id
            || GivesWay(s.mapInfo[s.vvNew[slot]], s.mapInfo[id], now))
  {
    var r := Insert(s, id, slot, now);
    assert s.mapInfo == s.mapInfo[id := s.mapInfo[id]];
    if Holds(s.vvNew, slot, id) {
    } else if slot !in s.vvNew {
      NothingForgotten(s, r, id, r.mapInfo[id], slot);
    } else if GivesWay(s.mapInfo[s.vvNew[slot]], s.mapInfo[id], now) {
      var cleared := ClearNew(s, slot);
      ClearNewShape(s, slot);
      ClearedRecords(s, cleared, s.vvNew[slot], slot);
      NothingForgotten(cleared, r, id, r.mapInfo[id], slot);
      ForgettingComposes(s, s, cleared, r, slot);
    } else if s.mapInfo[id].nRefCount == 0 {
      DeleteShape(s, id);
      DeletedRecords(s, r, id);
    }
  }

  lemma DeletedRecords(s: State, r: State, id: int)
    requires r.mapInfo.Keys == s.mapInfo.Keys - {id} && StatsKept(s, r, r.mapInfo.Keys)
    ensures RecordsKept(s, r) && forall k | k in s.mapInfo && k !in r.mapInfo :: k == id
  {
    forall k | k in r.mapInfo
      ensures k in s.mapInfo && Record(r.mapInfo[k]) == Record(s.mapInfo[k])
    {
      assert k in r.mapInfo.Keys;
      assert Stats(r.mapInfo[k]) == Stats(s.mapInfo[k]);
    }
    forall k | k in s.mapInfo && k !in r.mapInfo
      ensures k == id
    {
      assert k in s.mapInfo.Keys && k !in r.mapInfo.Keys;
    }
  }

  // ------------------------------------------------------------------------ Add_

  ghost function AddKnown(net: Network, s: State, id: int, address: Address, source: NetAddr, penalty: int,
                          now: int, dice: nat): State
    requires Inv(net, s) && id in s.mapInfo
  {
    var info := Refreshed(s.mapInfo[id], address, penalty, now);
    var refreshed := WithInfo(s, id, info);
    if Saturated(info, address) || Unlucky(info.nRefCount, dice) then refreshed
    else
      KnownInsertable(net, s, id, info, source, now);
      Insert(refreshed, id, NewSlot(net, s.nKey, info.Service(), source), now)
  }

  lemma KnownInsertable(net: Network, s: State, id: int, info: Info, source: NetAddr, now: int)
    requires Inv(net, s) && id in s.mapInfo && SamePlace(info, s.mapInfo[id]) && !info.fInTried
    requires info.nRefCount != NEW_BUCKETS_PER_ADDRESS
    ensures
      var r := WithInfo(s, id, info);
      var slot := NewSlot(net, s.nKey, info.Service(), source);
      && Inv(net, r) && Insertable(r, id, slot)
      && Between(net, Insert(r, id, slot, now), {}, 0)
  {
    hide Between, CollisionsOccupied;
    var r := WithInfo(s, id, info);
    TouchKeeps(net, s, r, id, info);
    CountInRange(net, r, id);
    InsertKeeps(net, r, id, NewSlot(net, s.nKey, info.Service(), source), now, {});
  }

  ghost function AddUnknown(net: Network, s: State, address: Address, source: NetAddr, penalty: int, now: int): State
    requires Inv(net, s) && address.service.addr !in s.mapAddr
  {
    UnknownInsertable(net, s, address, source, penalty, now);
    Insert(Created(s, address, source, penalty), s.nIdCount,
           NewSlot(net, s.nKey, address.service, source), now)
  }

  lemma UnknownInsertable(net: Network, s: State, address: Address, source: NetAddr, penalty: int, now: int)
    requires Inv(net, s) && address.service.addr !in s.mapAddr
    ensures
      var r := Created(s, address, source, penalty);
      var slot := NewSlot(net, s.nKey, address.service, source);
      && s.nIdCount !in s.mapInfo
      && Insertable(r, s.nIdCount, slot)
      && Between(net, Insert(r, s.nIdCount, slot, now), {}, 0)
  {
    hide Between, CollisionsOccupied;
    var stamped := address.(nTime := Uint32(Arith.Max(0, address.nTime - penalty)));
    var slot := NewSlot(net, s.nKey, address.service, source);
    NextIdUnused(net, s);
    CreateBetween(net, s, stamped, source);
    InsertKeeps(net, Created(s, address, source, penalty), s.nIdCount, slot, now, {s.nIdCount});
  }

  lemma NextIdUnused(net: Network, s: State)
    requires Inv(net, s)
    ensures s.nIdCount !in s.mapInfo
  {
  }

  ghost function Add(net: Network, s: State, address: Address, source: NetAddr, nTimePenalty: int,
                     now: int, dice: nat): State
    requires Inv(net, s)
  {
    var penalty := Penalty(address, source, nTimePenalty);
    if !net.isRoutable(address.service.addr) then s
    else if address.service.addr in s.mapAddr
    then AddKnown(net, s, s.mapAddr[address.service.addr], address, source, penalty, now, dice)
    else AddUnknown(net, s, address, source, penalty, now)
  }

  // What Add_ returns.
  predicate AddReturns(net: Network, s: State, address: Address) {
    net.isRoutable(address.service.addr) && address.service.addr !in s.mapAddr
  }

  lemma AddKnownKeeps(net: Network, s: State, id: int, address: Address, source: NetAddr, penalty: int,
                      now: int, dice: nat)
    requires Inv(net, s) && id in s.mapInfo
    ensures
      var r := AddKnown(net, s, id, address, source, penalty, now, dice);
      Inv(net, r) && Follows(s, r) && r.vvTried == s.vvTried
  {
    hide Between, CollisionsOccupied;
    var info := Refreshed(s.mapInfo[id], address, penalty, now);
    var refreshed := WithInfo(s, id, info);
    TouchKeeps(net, s, refreshed, id, info);
    TouchFollows(s, refreshed, id, info);
    if !(Saturated(info, address) || Unlucky(info.nRefCount, dice)) {
      var slot := NewSlot(net, s.nKey, info.Service(), source);
      KnownInsertable(net, s, id, info, source, now);
      InsertEffect(net, refreshed, id, slot, now);
      var r := Insert(refreshed, id, slot, now);
      CollisionsKept(net, refreshed, r);
      FollowsTransitive(s, refreshed, r);
    }
  }

  lemma AddUnknownKeeps(net: Network, s: State, address: Address, source: NetAddr, penalty: int, now: int)
    requires Inv(net, s) && address.service.addr !in s.mapAddr
    ensures
      var r := AddUnknown(net, s, address, source, penalty, now);
      Inv(net, r) && Follows(s, r) && r.vvTried == s.vvTried
  {
    hide Between, CollisionsOccupied;
    UnknownInsertable(net, s, address, source, penalty, now);
    var created := Created(s, address, source, penalty);
    var slot := NewSlot(net, s.nKey, address.service, source);
    InsertEffect(net, created, s.nIdCount, slot, now);
    var r := Insert(created, s.nIdCount, slot, now);
    assert Follows(s, created);
    FollowsTransitive(s, created, r);
    CollisionsKept(net, s, r);
  }

  lemma AddKeeps(net: Network, s: State, address: Address, source: NetAddr, nTimePenalty: int, now: int, dice: nat)
    requires Inv(net, s)
    ensures
      var r := Add(net, s, address, source, nTimePenalty, now, dice);
      Inv(net, r) && Follows(s, r) && r.vvTried == s.vvTried
  {
    var penalty := Penalty(address, source, nTimePenalty);
    var addr := address.service.addr;
    if net.isRoutable(addr) {
      if addr in s.mapAddr {
        AddKnownKeeps(net, s, s.mapAddr[addr], address, source, penalty, now, dice);
      } else {
        AddUnknownKeeps(net, s, address, source, penalty, now);
      }
    }
  }

  // An unknown routable address is kept exactly when its slot is free or the occupant gives
  // way; Add_ returns true for it in either case.
  lemma UnknownKeptIff(net: Network, s: State, address: Address, source: NetAddr, nTimePenalty: int, now: int, dice: nat)
    requires Inv(net, s) && AddReturns(net, s, address)
    ensures
      var r := Add(net, s, address, source, nTimePenalty, now, dice);
      var slot := NewSlot(net, s.nKey, address.service, source);
      address.service.addr in r.mapAddr <==>
        || slot !in s.vvNew
        || (s.vvNew[slot] in s.mapInfo && s.mapInfo[s.vvNew[slot]].IsTerrible(now))
        || (s.vvNew[slot] in s.mapInfo && s.mapInfo[s.vvNew[slot]].nRefCount > 1)
  {
    hide Between, CollisionsOccupied, Follows, RecordsKept, NewSlotIn, GetNewBucket;
    var penalty := Penalty(address, source, nTimePenalty);
    var addr := address.service.addr;
    var slot := NewSlot(net, s.nKey, address.service, source);
    var created := Created(s, address, source, penalty);
    var r := AddUnknown(net, s, address, source, penalty, now);
    UnknownInsertable(net, s, address, source, penalty, now);
    InsertEffect(net, created, s.nIdCount, slot, now);
    AddUnknownKeeps(net, s, address, source, penalty, now);
    OnlyOwnerOfAddress(net, s, created, r, addr);
    if slot in s.vvNew {
      OwnerKnown(net, s, slot);
    }
  }

  lemma OwnerKnown(net: Network, s: State, slot: Slot)
    requires Inv(net, s) && slot in s.vvNew
    ensures s.vvNew[slot] in s.mapInfo && s.vvNew[slot] != s.nIdCount
  {
    assert NewPlacedAt(net, s, slot);
  }

  // An address unknown before can only be known under the id created for it.
  lemma OnlyOwnerOfAddress(net: Network, s: State, created: State, r: State, addr: NetAddr)
    requires Inv(net, s) && Inv(net, r) && addr !in s.mapAddr
    requires s.nIdCount in created.mapInfo && created.mapInfo == s.mapInfo[s.nIdCount := created.mapInfo[s.nIdCount]]
    requires created.mapInfo[s.nIdCount].Addr() == addr && RecordsKept(created, r)
    ensures addr in r.mapAddr <==> s.nIdCount in r.mapInfo
  {
    if addr in r.mapAddr {
      var id := r.mapAddr[addr];
      assert id in r.mapInfo && r.mapInfo[id].Addr() == addr;
      assert Record(r.mapInfo[id]) == Record(created.mapInfo[id]);
    }
    if s.nIdCount in r.mapInfo {
      assert Record(r.mapInfo[s.nIdCount]) == Record(created.mapInfo[s.nIdCount]);
    }
  }
}
