/**
 The steps of the address manager's operations keep its indexes coherent, and the two
 operations built from them, Add_ and MakeTried, keep the whole invariant.
 */
module AddrManSteps {
  import opened AddrManState

  lemma CreateKeeps(net: Network, s: State, address: Address, source: NetAddr)
    requires Coherent(net, s) && address.service.addr !in s.mapAddr
    ensures Coherent(net, Create(s, address, source))
    ensures s.nIdCount !in s.mapInfo
  {
    var r := Create(s, address, source);
    CreateLinks(s, address, source);
    forall slot | slot in r.vvTried
      ensures TriedPlacedAt(net, r, slot)
    {
      assert TriedPlacedAt(net, s, slot);
    }
    forall slot | slot in r.vvNew
      ensures NewPlacedAt(net, r, slot) && r.vvNew[slot] != s.nIdCount
    {
      assert NewPlacedAt(net, s, slot);
    }
    assert Refs(r.vvNew, s.nIdCount) == {};
  }

  lemma CreateLinks(s: State, address: Address, source: NetAddr)
    requires RandomLinked(s) && AddrLinked(s) && IdsUsed(s) && address.service.addr !in s.mapAddr
    ensures
      var r := Create(s, address, source);
      RandomLinked(r) && AddrLinked(r) && IdsUsed(r)
  {
  }

  lemma AddRefKeeps(net: Network, s: State, id: int, slot: Slot)
    requires Coherent(net, s) && CanRefer(net, s, id, slot)
    requires s.mapInfo[id].nRefCount < NEW_BUCKETS_PER_ADDRESS
    ensures Coherent(net, AddRef(s, id, slot))
  {
    var info := s.mapInfo[id].(nRefCount := s.mapInfo[id].nRefCount + 1);
    var r := AddRef(s, id, slot);
    LinksKept(s, r, id, info);
    NewEntryPlaced(net, s, r, id, info, slot);
    CountsAfterSet(s, r, id, slot);
  }

  // An empty new slot at the position an untried id hashes to.
  ghost predicate CanRefer(net: Network, s: State, id: int, slot: Slot) {
    && id in s.mapInfo && !s.mapInfo[id].fInTried
    && slot !in s.vvNew && slot.bucket < NEW_BUCKET_COUNT
    && slot == NewSlotIn(net, s.nKey, s.mapInfo[id].Service(), slot.bucket)
  }

  lemma NewEntryPlaced(net: Network, s: State, r: State, id: int, info: Info, slot: Slot)
    requires TriedPlaced(net, s) && NewPlaced(net, s) && CanRefer(net, s, id, slot)
    requires r.mapInfo == s.mapInfo[id := info] && r.nKey == s.nKey
    requires info.Service() == s.mapInfo[id].Service() && !info.fInTried
    requires r.vvTried == s.vvTried && r.vvNew == s.vvNew[slot := id]
    ensures TriedPlaced(net, r) && NewPlaced(net, r)
  {
    forall other | other in r.vvTried
      ensures TriedPlacedAt(net, r, other)
    {
      assert TriedPlacedAt(net, s, other);
    }
    forall other | other in r.vvNew
      ensures NewPlacedAt(net, r, other)
    {
      assert other != slot ==> NewPlacedAt(net, s, other);
    }
  }

  lemma CountsAfterSet(s: State, r: State, id: int, slot: Slot)
    requires RefsCounted(s) && id in s.mapInfo && slot !in s.vvNew
    requires s.mapInfo[id].nRefCount < NEW_BUCKETS_PER_ADDRESS
    requires id in r.mapInfo && r.mapInfo == s.mapInfo[id := r.mapInfo[id]]
    requires r.mapInfo[id].nRefCount == s.mapInfo[id].nRefCount + 1
    requires r.vvNew == s.vvNew[slot := id]
    ensures RefsCounted(r)
  {
    forall k | k in r.mapInfo
      ensures r.mapInfo[k].nRefCount == |Refs(r.vvNew, k)| <= NEW_BUCKETS_PER_ADDRESS
    {
      RefsAfterSet(s.vvNew, slot, id, k);
    }
  }

  // The loops that look at one position per bucket miss no reference.
  lemma ScanFindsAll(net: Network, s: State, id: int)
    requires NewPlaced(net, s) && id in s.mapInfo
    ensures ScanNew(net, s, id, NEW_BUCKET_COUNT) == Refs(s.vvNew, id)
  {
    forall slot | slot in Refs(s.vvNew, id)
      ensures slot in ScanNew(net, s, id, NEW_BUCKET_COUNT)
    {
      assert NewPlacedAt(net, s, slot);
      assert Holds(s.vvNew, NewSlotIn(net, s.nKey, s.mapInfo[id].Service(), slot.bucket), id);
    }
  }

  lemma RefsAfterLeaving(table: Table, id: int, k: int)
    ensures Refs(table - Refs(table, id), k) == if k == id then {} else Refs(table, k)
  {
    assert Refs(table - Refs(table, id), k) == if k == id then {} else Refs(table, k);
  }

  // After the first loop of MakeTried nothing refers to the id: its assert holds.
  lemma LeaveNewKeeps(net: Network, s: State, id: int)
    requires Coherent(net, s) && id in s.mapInfo
    ensures
      var r := LeaveNew(net, s, id);
      && Coherent(net, r)
      && r.mapInfo == s.mapInfo[id := s.mapInfo[id].(nRefCount := 0)]
      && r.vvNew == s.vvNew - Refs(s.vvNew, id)
  {
    ScanFindsAll(net, s, id);
    var info := s.mapInfo[id].(nRefCount := 0);
    var r := LeaveNew(net, s, id);
    LinksKept(s, r, id, info);
    PlacementKept(net, s, r, id, info);
    forall k | k in r.mapInfo
      ensures r.mapInfo[k].nRefCount == |Refs(r.vvNew, k)| <= NEW_BUCKETS_PER_ADDRESS
    {
      RefsAfterLeaving(s.vvNew, id, k);
    }
  }

  lemma TakenOutPlaced(net: Network, s: State, r: State, slot: Slot, id: int, info: Info)
    requires TriedPlaced(net, s) && NewPlaced(net, s)
    requires Holds(s.vvTried, slot, id) && id in s.mapInfo && r.nKey == s.nKey
    requires r.mapInfo == s.mapInfo[id := info] && info.Service() == s.mapInfo[id].Service() && !info.fInTried
    requires r.vvTried == s.vvTried - {slot} && r.vvNew == s.vvNew
    ensures TriedPlaced(net, r) && NewPlaced(net, r)
  {
    assert TriedPlacedAt(net, s, slot);
    forall other | other in r.vvTried
      ensures TriedPlacedAt(net, r, other)
    {
      assert TriedPlacedAt(net, s, other);
    }
    forall other | other in r.vvNew
      ensures NewPlacedAt(net, r, other)
    {
      assert NewPlacedAt(net, s, other);
    }
  }

  lemma TakeOutKeeps(net: Network, s: State, slot: Slot)
    requires Coherent(net, s) && slot in s.vvTried && s.vvTried[slot] in s.mapInfo
    ensures Coherent(net, TakeOut(s, slot))
  {
    var id := s.vvTried[slot];
    var info := s.mapInfo[id].(fInTried := false);
    var r := TakeOut(s, slot);
    LinksKept(s, r, id, info);
    TakenOutPlaced(net, s, r, slot, id, info);
  }

  lemma ReenterKeeps(net: Network, s: State, id: int, slot: Slot)
    requires Coherent(net, s) && CanRefer(net, s, id, slot) && s.mapInfo[id].nRefCount == 0
    ensures Coherent(net, Reenter(s, id, slot))
  {
    var info := s.mapInfo[id].(nRefCount := 1);
    var r := Reenter(s, id, slot);
    LinksKept(s, r, id, info);
    NewEntryPlaced(net, s, r, id, info, slot);
    CountsAfterSet(s, r, id, slot);
  }

  lemma EnteredPlaced(net: Network, s: State, r: State, slot: Slot, id: int, info: Info)
    requires TriedPlaced(net, s) && NewPlaced(net, s)
    requires id in s.mapInfo && Refs(s.vvNew, id) == {} && r.nKey == s.nKey
    requires slot !in s.vvTried && slot == TriedSlot(net, s.nKey, s.mapInfo[id].Service())
    requires r.mapInfo == s.mapInfo[id := info] && info.Service() == s.mapInfo[id].Service() && info.fInTried
    requires r.vvTried == s.vvTried[slot := id] && r.vvNew == s.vvNew
    ensures TriedPlaced(net, r) && NewPlaced(net, r)
  {
    forall other | other in r.vvTried
      ensures TriedPlacedAt(net, r, other)
    {
      assert other != slot ==> TriedPlacedAt(net, s, other);
    }
    forall other | other in r.vvNew
      ensures NewPlacedAt(net, r, other)
    {
      assert NewPlacedAt(net, s, other);
      assert s.vvNew[other] == id ==> other in Refs(s.vvNew, id);
    }
  }

  lemma EnterTriedKeeps(net: Network, s: State, id: int, slot: Slot)
    requires Coherent(net, s) && id in s.mapInfo && s.mapInfo[id].nRefCount == 0
    requires slot !in s.vvTried && slot == TriedSlot(net, s.nKey, s.mapInfo[id].Service())
    ensures Coherent(net, EnterTried(s, id, slot))
  {
    var info := s.mapInfo[id].(fInTried := true);
    var r := EnterTried(s, id, slot);
    LinksKept(s, r, id, info);
    EnteredPlaced(net, s, r, slot, id, info);
  }

  // ------------------------------------------- the invariant inside operations

  lemma SettledKept(net: Network, s: State, r: State, id: int)
    requires id in s.mapInfo && Settled(net, s, id)
    requires id in r.mapInfo && Stats(r.mapInfo[id]) == Stats(s.mapInfo[id]) && r.nKey == s.nKey
    requires forall slot | Holds(s.vvTried, slot, id) :: Holds(r.vvTried, slot, id)
    ensures Settled(net, r, id)
  {
    assert r.mapInfo[id].Service() == s.mapInfo[id].Service();
  }

  // A step that changes one id leaves all others settled.
  lemma OthersSettled(net: Network, s: State, r: State, id: int, pending: set<int>)
    requires AllSettled(net, s, pending) && r.nKey == s.nKey
    requires StatsKept(s, r, r.mapInfo.Keys - {id})
    requires forall slot | slot in s.vvTried && s.vvTried[slot] != id :: Holds(r.vvTried, slot, s.vvTried[slot])
    ensures AllSettled(net, r, pending + {id})
  {
    forall k | k in r.mapInfo && k !in pending + {id}
      ensures Settled(net, r, k)
    {
      assert k in r.mapInfo.Keys - {id};
      SettledKept(net, s, r, k);
    }
  }

  // Moving one id from tried to new, or back, moves it between the two sets of ids.
  lemma MoveCounts(s: State, r: State, id: int, info: Info)
    requires id in s.mapInfo && r.mapInfo == s.mapInfo[id := info]
    requires info.fInTried != s.mapInfo[id].fInTried
    ensures |TriedIds(r)| == |TriedIds(s)| + if info.fInTried then 1 else -1
    ensures |NewIds(r)| == |NewIds(s)| - if info.fInTried then 1 else -1
  {
    if info.fInTried {
      assert TriedIds(r) == TriedIds(s) + {id};
      assert NewIds(r) == NewIds(s) - {id};
    } else {
      assert TriedIds(r) == TriedIds(s) - {id};
      assert NewIds(r) == NewIds(s) + {id};
    }
  }

  lemma CreateBetween(net: Network, s: State, address: Address, source: NetAddr)
    requires Between(net, s, {}, 0) && address.service.addr !in s.mapAddr
    ensures
      var r := Create(s, address, source);
      Between(net, r.(nNew := r.nNew + 1), {s.nIdCount}, 0)
  {
    var r := Create(s, address, source);
    CreateKeeps(net, s, address, source);
    assert TriedIds(r) == TriedIds(s);
    assert NewIds(r) == NewIds(s) + {s.nIdCount};
    forall id | id in r.mapInfo && id != s.nIdCount
      ensures Settled(net, r, id)
    {
      SettledKept(net, s, r, id);
    }
    NewCountIrrelevant(net, r, r.nNew + 1, {s.nIdCount}, 1);
  }

  lemma NewCountIrrelevant(net: Network, s: State, count: int, pending: set<int>, missing: int)
    requires Between(net, s, pending, missing)
    ensures Between(net, s.(nNew := count), pending, missing + s.nNew - count)
  {
    var r := s.(nNew := count);
    assert TriedIds(r) == TriedIds(s) && NewIds(r) == NewIds(s);
    forall slot | slot in r.vvTried ensures TriedPlacedAt(net, r, slot) { assert TriedPlacedAt(net, s, slot); }
    forall slot | slot in r.vvNew ensures NewPlacedAt(net, r, slot) { assert NewPlacedAt(net, s, slot); }
    forall id | id in r.mapInfo && id !in pending
      ensures Settled(net, r, id)
    {
      assert Settled(net, s, id);
    }
  }

  lemma DeleteBetween(net: Network, s: State, id: int, pending: set<int>, missing: int)
    requires Between(net, s, pending, missing)
    requires id in s.mapInfo && !s.mapInfo[id].fInTried && s.mapInfo[id].nRefCount == 0
    ensures Between(net, Delete(s, id), pending - {id}, missing)
  {
    var r := Delete(s, id);
    DeleteShape(s, id);
    DeleteKeeps(net, s, id);
    RemovalCounts(s, r, id);
    forall k | k in r.mapInfo && k !in pending - {id}
      ensures Settled(net, r, k)
    {
      SettledKept(net, s, r, k);
    }
  }

  lemma RemovalCounts(s: State, r: State, id: int)
    requires id in s.mapInfo && !s.mapInfo[id].fInTried
    requires r.mapInfo.Keys == s.mapInfo.Keys - {id} && StatsKept(s, r, r.mapInfo.Keys)
    ensures TriedIds(r) == TriedIds(s) && NewIds(r) == NewIds(s) - {id}
    ensures |TriedIds(r)| == |TriedIds(s)| && |NewIds(r)| == |NewIds(s)| - 1
  {
    forall k | k in r.mapInfo
      ensures r.mapInfo[k].fInTried == s.mapInfo[k].fInTried
    {
      assert Stats(r.mapInfo[k]) == Stats(s.mapInfo[k]);
    }
  }

  lemma ClearNewBetween(net: Network, s: State, slot: Slot, pending: set<int>, missing: int)
    requires Between(net, s, pending, missing)
    requires slot in s.vvNew ==> CanUnref(s, s.vvNew[slot])
    ensures Between(net, ClearNew(s, slot), pending, missing)
  {
    ClearNewKeeps(net, s, slot);
    if slot in s.vvNew {
      ClearNewSettles(net, s, slot, pending);
    }
  }

  lemma ClearNewSettles(net: Network, s: State, slot: Slot, pending: set<int>)
    requires RandomLinked(s) && AllSettled(net, s, pending)
    requires slot in s.vvNew && CanUnref(s, s.vvNew[slot])
    ensures
      var r := ClearNew(s, slot);
      && AllSettled(net, r, pending)
      && r.nTried - |TriedIds(r)| == s.nTried - |TriedIds(s)|
      && r.nNew - |NewIds(r)| == s.nNew - |NewIds(s)|
  {
    var r := ClearNew(s, slot);
    var id := s.vvNew[slot];
    ClearNewShape(s, slot);
    ClearedCounts(s, r, id);
    OthersSettled(net, s, r, id, pending);
    assert id in r.mapInfo ==> Settled(net, r, id);
  }

  lemma ClearedCounts(s: State, r: State, id: int)
    requires id in s.mapInfo && !s.mapInfo[id].fInTried && StatsKept(s, r, s.mapInfo.Keys - {id})
    requires
      || r.mapInfo.Keys == s.mapInfo.Keys - {id}
      || (r.mapInfo.Keys == s.mapInfo.Keys && !r.mapInfo[id].fInTried)
    ensures |TriedIds(r)| == |TriedIds(s)|
    ensures |NewIds(r)| == |NewIds(s)| - if id in r.mapInfo then 0 else 1
  {
    if id !in r.mapInfo {
      RemovalCounts(s, r, id);
    } else {
      forall k | k in s.mapInfo
        ensures r.mapInfo[k].fInTried == s.mapInfo[k].fInTried
      {
        assert k != id ==> Stats(r.mapInfo[k]) == Stats(s.mapInfo[k]);
      }
      SameTables(s, r);
    }
  }

  lemma SameTables(s: State, r: State)
    requires r.mapInfo.Keys == s.mapInfo.Keys
    requires forall k | k in s.mapInfo :: r.mapInfo[k].fInTried == s.mapInfo[k].fInTried
    ensures TriedIds(r) == TriedIds(s) && NewIds(r) == NewIds(s)
  {
    forall k
      ensures k in TriedIds(r) <==> k in TriedIds(s)
      ensures k in NewIds(r) <==> k in NewIds(s)
    {
      assert k in r.mapInfo.Keys <==> k in s.mapInfo.Keys;
    }
  }

  lemma AddRefBetween(net: Network, s: State, id: int, slot: Slot, pending: set<int>, missing: int)
    requires Between(net, s, pending, missing) && CanRefer(net, s, id, slot)
    requires s.mapInfo[id].nRefCount < NEW_BUCKETS_PER_ADDRESS
    ensures Between(net, AddRef(s, id, slot), pending - {id}, missing)
  {
    AddRefKeeps(net, s, id, slot);
    var r := AddRef(s, id, slot);
    SameTables(s, r);
    OthersSettled(net, s, r, id, pending);
  }

  lemma LeaveNewBetween(net: Network, s: State, id: int)
    requires Between(net, s, {}, 0) && id in s.mapInfo && !s.mapInfo[id].fInTried
    ensures
      var r := LeaveNew(net, s, id);
      && Between(net, r, {id}, 1)
      && r.mapInfo == s.mapInfo[id := s.mapInfo[id].(nRefCount := 0)]
      && r.vvNew == s.vvNew - Refs(s.vvNew, id)
  {
    LeaveNewKeeps(net, s, id);
    var r := LeaveNew(net, s, id);
    SameTables(s, r);
    OthersSettled(net, s, r, id, {});
  }

  lemma TakeOutBetween(net: Network, s: State, slot: Slot, pending: set<int>, missing: int)
    requires Between(net, s, pending, missing) && slot in s.vvTried && s.vvTried[slot] in s.mapInfo
    ensures Between(net, TakeOut(s, slot), pending + {s.vvTried[slot]}, missing + 1)
  {
    TakeOutKeeps(net, s, slot);
    assert TriedPlacedAt(net, s, slot);
    TakeOutSettles(net, s, slot, pending);
  }

  lemma TakeOutSettles(net: Network, s: State, slot: Slot, pending: set<int>)
    requires AllSettled(net, s, pending)
    requires slot in s.vvTried && s.vvTried[slot] in s.mapInfo && s.mapInfo[s.vvTried[slot]].fInTried
    ensures
      var r := TakeOut(s, slot);
      && AllSettled(net, r, pending + {s.vvTried[slot]})
      && |TriedIds(r)| == |TriedIds(s)| - 1
      && |NewIds(r)| == |NewIds(s)| + 1
  {
    var id := s.vvTried[slot];
    var r := TakeOut(s, slot);
    MoveCounts(s, r, id, s.mapInfo[id].(fInTried := false));
    OthersSettled(net, s, r, id, pending);
  }

  lemma ReenterBetween(net: Network, s: State, id: int, slot: Slot, pending: set<int>, missing: int)
    requires Between(net, s, pending, missing) && CanRefer(net, s, id, slot) && s.mapInfo[id].nRefCount == 0
    ensures Between(net, Reenter(s, id, slot), pending - {id}, missing - 1)
  {
    ReenterKeeps(net, s, id, slot);
    ReenterSettles(net, s, id, slot, pending);
  }

  lemma ReenterSettles(net: Network, s: State, id: int, slot: Slot, pending: set<int>)
    requires AllSettled(net, s, pending) && id in s.mapInfo && !s.mapInfo[id].fInTried
    ensures
      var r := Reenter(s, id, slot);
      AllSettled(net, r, pending - {id}) && TriedIds(r) == TriedIds(s) && NewIds(r) == NewIds(s)
  {
    var r := Reenter(s, id, slot);
    SameTables(s, r);
    OthersSettled(net, s, r, id, pending);
  }

  lemma EnterTriedBetween(net: Network, s: State, id: int, slot: Slot, pending: set<int>, missing: int)
    requires Between(net, s, pending, missing)
    requires id in s.mapInfo && !s.mapInfo[id].fInTried && s.mapInfo[id].nRefCount == 0
    requires slot !in s.vvTried && slot == TriedSlot(net, s.nKey, s.mapInfo[id].Service())
    ensures Between(net, EnterTried(s, id, slot), pending - {id}, missing - 1)
  {
    EnterTriedKeeps(net, s, id, slot);
    EnterTriedSettles(net, s, id, slot, pending);
  }

  lemma EnterTriedSettles(net: Network, s: State, id: int, slot: Slot, pending: set<int>)
    requires AllSettled(net, s, pending) && id in s.mapInfo && !s.mapInfo[id].fInTried
    requires slot !in s.vvTried && slot == TriedSlot(net, s.nKey, s.mapInfo[id].Service())
    ensures
      var r := EnterTried(s, id, slot);
      && AllSettled(net, r, pending - {id})
      && |TriedIds(r)| == |TriedIds(s)| + 1
      && |NewIds(r)| == |NewIds(s)| - 1
  {
    var r := EnterTried(s, id, slot);
    MoveCounts(s, r, id, s.mapInfo[id].(fInTried := true));
    OthersSettled(net, s, r, id, pending);
    assert Settled(net, r, id);
  }
}
