/**
 The address manager as the object it is in src/addrman.h: maps, a vector, counters and two
 fixed bucket arrays, updated in place. Every method is tied to the operation of the same
 name on the abstract state, for which the invariant is proved.
 */
module AddrMan {
  import Arith
  import opened Options
  import opened AddrManState
  import AddrManOps
  import AddrManAdd
  import AddrManRun
  import opened AddrManSerial

  // What a bucket array holds; -1 marks an empty slot.
  ghost function TableOf(a: array2<int>): Table
    reads a
  {
    map b, p | 0 <= b < a.Length0 && 0 <= p < a.Length1 && a[b, p] != -1 :: Slot(b, p) := a[b, p]
  }

  ghost predicate InTable(a: array2<int>, slot: Slot) {
    slot.bucket < a.Length0 && slot.pos < a.Length1
  }

  // table[bucket][pos] = id
  method Put(a: array2<int>, slot: Slot, id: int)
    requires InTable(a, slot)
    modifies a
    ensures a[slot.bucket, slot.pos] == id
    ensures TableOf(a) == if id == -1 then old(TableOf(a)) - {slot} else old(TableOf(a))[slot := id]
  {
    ghost var before := TableOf(a);
    TableEntries(a);
    a[slot.bucket, slot.pos] := id;
    TableEntries(a);
    assert TableOf(a) == if id == -1 then before - {slot} else before[slot := id];
  }

  lemma TableEntries(a: array2<int>)
    ensures forall slot :: slot in TableOf(a) <==> InTable(a, slot) && a[slot.bucket, slot.pos] != -1
    ensures forall slot | slot in TableOf(a) :: TableOf(a)[slot] == a[slot.bucket, slot.pos]
  {
    forall slot
      ensures slot in TableOf(a) <==> InTable(a, slot) && a[slot.bucket, slot.pos] != -1
    {
      if InTable(a, slot) {
        assert slot == Slot(slot.bucket, slot.pos);
      }
    }
  }

  lemma TableAt(a: array2<int>, slot: Slot)
    requires InTable(a, slot)
    ensures slot in TableOf(a) <==> a[slot.bucket, slot.pos] != -1
    ensures slot in TableOf(a) ==> TableOf(a)[slot] == a[slot.bucket, slot.pos]
  {
    TableEntries(a);
  }

  function RotatedBucket(n: nat, nRnd: nat): (b: nat)
    ensures b < NEW_BUCKET_COUNT
  {
    (n + nRnd) % NEW_BUCKET_COUNT
  }

  // Every bucket comes up in the rotation.
  lemma RotatedBack(b: nat, nRnd: nat) returns (m: nat)
    requires b < NEW_BUCKET_COUNT
    ensures m < NEW_BUCKET_COUNT && RotatedBucket(m, nRnd) == b
  {
    m := (b - nRnd) % NEW_BUCKET_COUNT;
  }

  class AddrMan {
    const net: Network
    const vvTried: array2<int>
    const vvNew: array2<int>

    var nKey: nat
    var nIdCount: int
    var mapInfo: map<int, Info>
    var mapAddr: map<NetAddr, int>
    var vRandom: seq<int>
    var nTried: int
    var nNew: int
    var nLastGood: int
    var triedCollisions: set<int>

    ghost predicate Shape() {
      && vvTried != vvNew
      && vvTried.Length0 == TRIED_BUCKET_COUNT && vvTried.Length1 == BUCKET_SIZE
      && vvNew.Length0 == NEW_BUCKET_COUNT && vvNew.Length1 == BUCKET_SIZE
    }

    ghost function Abs(): State
      reads this, vvTried, vvNew
    {
      State(nKey, nIdCount, mapInfo, mapAddr, vRandom, nTried, TableOf(vvTried), nNew, TableOf(vvNew),
            nLastGood, triedCollisions)
    }

    ghost predicate Valid()
      reads this, vvTried, vvNew
    {
      Shape() && Inv(net, Abs())
    }

    constructor (net: Network, key: nat)
      ensures Valid() && this.net == net && Abs() == AddrManRun.Fresh(key)
      ensures fresh(vvTried) && fresh(vvNew)
    {
      this.net := net;
      vvTried := new int[TRIED_BUCKET_COUNT, BUCKET_SIZE]((b, p) => -1);
      vvNew := new int[NEW_BUCKET_COUNT, BUCKET_SIZE]((b, p) => -1);
      nKey, nIdCount, mapInfo, mapAddr, vRandom := key, 0, map[], map[], [];
      nTried, nNew, nLastGood, triedCollisions := 0, 0, 1, {};
      new;
      assert TableOf(vvTried) == map[];
      assert TableOf(vvNew) == map[];
      AddrManRun.FreshInv(net, key);
    }

    method SwapRandom(pos1: nat, pos2: nat)
      requires RandomLinked(Abs())
      requires pos1 == pos2 || (pos1 < |vRandom| && pos2 < |vRandom|)
      modifies this
      ensures Abs() == AddrManState.SwapRandom(old(Abs()), pos1, pos2)
    {
      if pos1 == pos2 {
        return;
      }
      var id1, id2 := vRandom[pos1], vRandom[pos2];
      assert id1 in mapInfo && id2 in mapInfo;
      mapInfo := mapInfo[id1 := mapInfo[id1].(nRandomPos := pos2)];
      mapInfo := mapInfo[id2 := mapInfo[id2].(nRandomPos := pos1)];
      vRandom := vRandom[pos1 := id2];
      vRandom := vRandom[pos2 := id1];
    }

    method Delete(id: int)
      requires RandomLinked(Abs())
      requires id in mapInfo && !mapInfo[id].fInTried && mapInfo[id].nRefCount == 0
      modifies this
      ensures Abs() == AddrManState.Delete(old(Abs()), id)
    {
      SwapRandom(mapInfo[id].nRandomPos, |vRandom| - 1);
      vRandom := vRandom[..|vRandom| - 1];
      mapAddr := mapAddr - {mapInfo[id].Addr()};
      mapInfo := mapInfo - {id};
      nNew := nNew - 1;
    }

    method ClearNew(slot: Slot)
      requires Shape() && RandomLinked(Abs()) && InTable(vvNew, slot)
      requires slot in Abs().vvNew ==> CanUnref(Abs(), Abs().vvNew[slot])
      modifies this, vvNew
      ensures Abs() == AddrManState.ClearNew(old(Abs()), slot)
    {
      TableAt(vvNew, slot);
      if vvNew[slot.bucket, slot.pos] != -1 {
        var id := vvNew[slot.bucket, slot.pos];
        assert mapInfo[id].nRefCount > 0;
        mapInfo := mapInfo[id := mapInfo[id].(nRefCount := mapInfo[id].nRefCount - 1)];
        Put(vvNew, slot, -1);
        if mapInfo[id].nRefCount == 0 {
          Delete(id);
        }
      }
    }

    method Create(address: Address, source: NetAddr) returns (id: int)
      modifies this
      ensures Abs() == AddrManState.Create(old(Abs()), address, source) && id == old(nIdCount)
    {
      id := nIdCount;
      nIdCount := nIdCount + 1;
      mapInfo := mapInfo[id := NewInfo(address, source)];
      mapAddr := mapAddr[address.service.addr := id];
      mapInfo := mapInfo[id := mapInfo[id].(nRandomPos := |vRandom|)];
      vRandom := vRandom + [id];
    }

    // The first loop of MakeTried.
    method LeaveNew(id: int)
      requires Shape() && id in mapInfo && id >= 0
      modifies this, vvNew
      ensures Abs() == AddrManState.LeaveNew(net, old(Abs()), id)
    {
      hide ScanNew, TableOf, NewSlotIn;
      ghost var s := Abs();
      var service := mapInfo[id].Service();
      ScanNone(net, s, id);
      for bucket := 0 to NEW_BUCKET_COUNT
        invariant TableOf(vvNew) == s.vvNew - ScanNew(net, s, id, bucket)
        invariant id in mapInfo && mapInfo[id].nRefCount == s.mapInfo[id].nRefCount - |ScanNew(net, s, id, bucket)|
        invariant mapInfo == s.mapInfo[id := s.mapInfo[id].(nRefCount := mapInfo[id].nRefCount)]
        invariant Abs() == s.(mapInfo := mapInfo, vvNew := TableOf(vvNew))
      {
        var slot := NewSlotIn(net, nKey, service, bucket);
        ScanNext(net, s, id, bucket);
        SlotInNew(net, nKey, service, bucket);
        TableAt(vvNew, slot);
        TableWithout(s.vvNew, ScanNew(net, s, id, bucket), slot, id);
        if vvNew[slot.bucket, slot.pos] == id {
          Put(vvNew, slot, -1);
          mapInfo := mapInfo[id := mapInfo[id].(nRefCount := mapInfo[id].nRefCount - 1)];
        }
      }
      nNew := nNew - 1;
    }

    // Moves the occupant of a tried slot back to the new table.
    method Evict(slot: Slot)
      requires Shape() && InTable(vvTried, slot) && AddrManOps.Evictable(net, Abs(), slot)
      modifies this, vvTried, vvNew
      ensures Abs() == AddrManOps.Evict(net, old(Abs()), slot)
    {
      hide TableOf, NewSlotIn, RandomLinked;
      ghost var s := Abs();
      TableAt(vvTried, slot);
      var id := vvTried[slot.bucket, slot.pos];
      mapInfo := mapInfo[id := mapInfo[id].(fInTried := false)];
      Put(vvTried, slot, -1);
      nTried := nTried - 1;
      assert Abs() == TakeOut(s, slot);
      var bucket := GetNewBucket(net, nKey, mapInfo[id].Service(), mapInfo[id].source);
      var target := NewSlotIn(net, nKey, mapInfo[id].Service(), bucket);
      SlotInNew(net, nKey, mapInfo[id].Service(), bucket);
      ClearNew(target);
      mapInfo := mapInfo[id := mapInfo[id].(nRefCount := 1)];
      Put(vvNew, target, id);
      nNew := nNew + 1;
    }

    method MakeTried(id: int)
      requires Shape() && id >= 0 && AddrManOps.Triable(net, Abs(), id)
      modifies this, vvTried, vvNew
      ensures Abs() == AddrManOps.MakeTried(net, old(Abs()), id)
    {
      hide TableOf, AddrManOps.Evict, AddrManOps.Evictable, ScanNew;
      LeaveNew(id);
      assert mapInfo[id].nRefCount == 0;
      var slot := TriedSlot(net, nKey, mapInfo[id].Service());
      SlotInTried(net, nKey, mapInfo[id].Service());
      TableAt(vvTried, slot);
      if vvTried[slot.bucket, slot.pos] != -1 {
        Evict(slot);
        TableAt(vvTried, slot);
      }
      assert vvTried[slot.bucket, slot.pos] == -1;
      Put(vvTried, slot, id);
      nTried := nTried + 1;
      mapInfo := mapInfo[id := mapInfo[id].(fInTried := true)];
    }

    method Find(service: Service) returns (id: Option<int>)
      ensures id == AddrManOps.FindExact(Abs(), service)
    {
      if service.addr !in mapAddr {
        return None;
      }
      var n := mapAddr[service.addr];
      if n !in mapInfo || mapInfo[n].Service() != service {
        return None;
      }
      id := Some(n);
    }

    // The search loop of Good_, from a random bucket on.
    method FindBucket(id: int, nRnd: nat) returns (found: int)
      requires Shape() && id in mapInfo && id >= 0
      ensures found == -1 <==> ScanNew(net, Abs(), id, NEW_BUCKET_COUNT) == {}
    {
      hide RotatedBucket;
      var service := mapInfo[id].Service();
      for n := 0 to NEW_BUCKET_COUNT
        invariant forall m | 0 <= m < n ::
          !Holds(TableOf(vvNew), NewSlotIn(net, nKey, service, RotatedBucket(m, nRnd)), id)
      {
        var slot := NewSlotIn(net, nKey, service, RotatedBucket(n, nRnd));
        TableAt(vvNew, slot);
        if vvNew[slot.bucket, slot.pos] == id {
          assert slot in ScanNew(net, Abs(), id, NEW_BUCKET_COUNT);
          return slot.bucket;
        }
      }
      found := -1;
      forall b | 0 <= b < NEW_BUCKET_COUNT
        ensures !Holds(TableOf(vvNew), NewSlotIn(net, nKey, service, b), id)
      {
        var m := RotatedBack(b, nRnd);
        assert RotatedBucket(m, nRnd) == b;
      }
    }

    method Good(service: Service, testBeforeEvict: bool, time: int, nRnd: nat)
      requires Valid()
      modifies this, vvTried, vvNew
      ensures Valid() && Abs() == AddrManOps.Good(net, old(Abs()), service, testBeforeEvict, time)
    {
      hide Inv, TableOf, ScanNew, TriedSlot, AddrManOps.MakeTried, AddrManOps.Triable;
      ghost var s := Abs();
      AddrManOps.GoodKeeps(net, s, service, testBeforeEvict, time);
      nLastGood := time;
      var found := Find(service);
      if found.None? {
        return;
      }
      var id := found.value;
      AddrManOps.IdBelowCount(net, s, id);
      mapInfo := mapInfo[id := mapInfo[id].(nLastSuccess := time, nLastTry := time, nAttempts := 0)];
      AddrManOps.TouchKeeps(net, s, Abs(), id, AddrManOps.Succeeded(s.mapInfo[id], time));
      if mapInfo[id].fInTried {
        return;
      }
      var nUBucket := FindBucket(id, nRnd);
      if nUBucket == -1 {
        return;
      }
      Promote(id, testBeforeEvict);
    }

    // Last part of Good_.
    method Promote(id: int, testBeforeEvict: bool)
      requires Valid() && id in mapInfo && !mapInfo[id].fInTried && id >= 0
      modifies this, vvTried, vvNew
      ensures Shape() && Abs() == AddrManOps.Promote(net, old(Abs()), id, testBeforeEvict)
    {
      hide Inv, TableOf, AddrManOps.MakeTried, AddrManOps.Triable;
      var slot := TriedSlot(net, nKey, mapInfo[id].Service());
      SlotInTried(net, nKey, mapInfo[id].Service());
      TableAt(vvTried, slot);
      if testBeforeEvict && vvTried[slot.bucket, slot.pos] != -1 {
        if |triedCollisions| < SET_TRIED_COLLISION_SIZE {
          triedCollisions := triedCollisions + {id};
        }
      } else {
        PromotedTriable(net, Abs(), id);
        MakeTried(id);
      }
    }

    // The second half of Add_.
    method Insert(id: int, slot: Slot, now: int)
      requires Shape() && InTable(vvNew, slot) && id >= 0 && AddrManAdd.Insertable(Abs(), id, slot)
      modifies this, vvNew
      ensures Abs() == AddrManAdd.Insert(old(Abs()), id, slot, now)
    {
      hide TableOf, RandomLinked;
      TableAt(vvNew, slot);
      var existing := vvNew[slot.bucket, slot.pos];
      if existing != id {
        var fInsert := existing == -1;
        if !fInsert {
          if mapInfo[existing].IsTerrible(now) || (mapInfo[existing].nRefCount > 1 && mapInfo[id].nRefCount == 0) {
            fInsert := true;
          }
        }
        if fInsert {
          ClearNew(slot);
          mapInfo := mapInfo[id := mapInfo[id].(nRefCount := mapInfo[id].nRefCount + 1)];
          Put(vvNew, slot, id);
        } else {
          if mapInfo[id].nRefCount == 0 {
            Delete(id);
          }
        }
      }
    }

    method Add(address: Address, source: NetAddr, nTimePenalty: int, now: int, dice: nat) returns (fNew: bool)
      requires Valid()
      modifies this, vvNew
      ensures Valid() && Abs() == AddrManAdd.Add(net, old(Abs()), address, source, nTimePenalty, now, dice)
      ensures fNew <==> AddrManAdd.AddReturns(net, old(Abs()), address)
    {
      hide Inv, TableOf, AddrManAdd.AddKnown, AddrManAdd.AddUnknown;
      ghost var s := Abs();
      AddrManAdd.AddKeeps(net, s, address, source, nTimePenalty, now, dice);
      if !net.isRoutable(address.service.addr) {
        return false;
      }
      var penalty := if address.service.addr == source then 0 else nTimePenalty;
      if address.service.addr in mapAddr {
        KnownAddr(net, s, address.service.addr);
        AddKnown(mapAddr[address.service.addr], address, source, penalty, now, dice);
        fNew := false;
      } else {
        AddUnknown(address, source, penalty, now);
        fNew := true;
      }
    }

    // Add_ for an address not known yet.
    method AddUnknown(address: Address, source: NetAddr, penalty: int, now: int)
      requires Valid() && address.service.addr !in mapAddr
      modifies this, vvNew
      ensures Shape() && Abs() == AddrManAdd.AddUnknown(net, old(Abs()), address, source, penalty, now)
    {
      hide Inv, TableOf, AddrManAdd.Insert, AddrManAdd.Insertable, AddrManAdd.Uint32;
      ghost var s := Abs();
      AddrManAdd.UnknownInsertable(net, s, address, source, penalty, now);
      CountNonNegative(net, s);
      var id := Create(address.(nTime := AddrManAdd.Uint32(Arith.Max(0, address.nTime - penalty))), source);
      nNew := nNew + 1;
      var bucket := GetNewBucket(net, nKey, address.service, source);
      SlotInNew(net, nKey, address.service, bucket);
      Insert(id, NewSlotIn(net, nKey, address.service, bucket), now);
    }

    // Add_ for an address that is known already.
    method AddKnown(id: int, address: Address, source: NetAddr, penalty: int, now: int, dice: nat)
      requires Valid() && id in mapInfo && id >= 0
      modifies this, vvNew
      ensures Shape() && Abs() == AddrManAdd.AddKnown(net, old(Abs()), id, address, source, penalty, now, dice)
    {
      hide Inv, TableOf, AddrManAdd.Insert, AddrManAdd.Insertable, AddrManAdd.Factor;
      ghost var s := Abs();
      var info := Refresh(mapInfo[id], address, penalty, now);
      mapInfo := mapInfo[id := info];
      if address.nTime == 0 || (info.address.nTime != 0 && address.nTime <= info.address.nTime) {
        return;
      }
      if info.fInTried || info.nRefCount == NEW_BUCKETS_PER_ADDRESS {
        return;
      }
      var nFactor := RefFactor(info.nRefCount);
      if nFactor > 1 && dice % nFactor != 0 {
        return;
      }
      AddrManAdd.KnownInsertable(net, s, id, info, source, now);
      var bucket := GetNewBucket(net, nKey, info.Service(), source);
      SlotInNew(net, nKey, info.Service(), bucket);
      Insert(id, NewSlotIn(net, nKey, info.Service(), bucket), now);
    }

    method Attempt(service: Service, fCountFailure: bool, time: int)
      requires Valid()
      modifies this
      ensures Valid() && Abs() == AddrManRun.Attempt(old(Abs()), service, fCountFailure, time)
    {
      hide Inv, TableOf;
      ghost var s := Abs();
      AddrManRun.ApplyKeeps(net, s, AddrManRun.OpAttempt(service, fCountFailure, time));
      var found := Find(service);
      if found.Some? {
        var info := mapInfo[found.value];
        info := info.(nLastTry := time);
        if fCountFailure && info.nLastCountAttempt < nLastGood {
          info := info.(nLastCountAttempt := time);
          info := info.(nAttempts := info.nAttempts + 1);
        }
        mapInfo := mapInfo[found.value := info];
      }
    }

    method Connected(service: Service, time: int)
      requires Valid()
      modifies this
      ensures Valid() && Abs() == AddrManRun.Connected(old(Abs()), service, time)
    {
      hide Inv, TableOf;
      AddrManRun.ApplyKeeps(net, Abs(), AddrManRun.OpConnected(service, time));
      var found := Find(service);
      if found.Some? {
        var info := mapInfo[found.value];
        if time - info.address.nTime > 20 * 60 {
          info := info.(address := info.address.(nTime := AddrManAdd.Uint32(time)));
        }
        mapInfo := mapInfo[found.value := info];
      }
    }

    method SetServices(service: Service, nServices: bv64)
      requires Valid()
      modifies this
      ensures Valid() && Abs() == AddrManRun.SetServices(old(Abs()), service, nServices)
    {
      hide Inv, TableOf;
      AddrManRun.ApplyKeeps(net, Abs(), AddrManRun.OpSetServices(service, nServices));
      var found := Find(service);
      if found.Some? {
        var info := mapInfo[found.value];
        mapInfo := mapInfo[found.value := info.(address := info.address.(nServices := nServices))];
      }
    }

    method GetAddr(now: int, dice: nat -> nat) returns (vAddr: seq<Address>)
      requires Valid()
      modifies this
      ensures Valid() && RandomLinked(old(Abs()))
      ensures
        var sample := AddrManRun.GetAddr(old(Abs()), now, dice);
        Abs() == sample.state && vAddr == sample.vAddr
      ensures |vAddr| == Arith.Min(Arith.Min(2500, 23 * |old(vRandom)| / 100), |AddrManRun.GoodIds(old(Abs()), now)|)
    {
      hide Inv, TableOf, RandomLinked, AddrManRun.RandomPos, AddrManRun.Reordered, Info.IsTerrible, AddrManState.SwapRandom;
      ghost var s := Abs();
      AddrManRun.GetAddrSamples(net, s, now, dice);
      ValidSample(net, s, now, dice);
      var nNodes := GETADDR_MAX_PCT * |vRandom| / 100;
      if nNodes > GETADDR_MAX {
        nNodes := GETADDR_MAX;
      }
      vAddr := [];
      var n := 0;
      while n < |vRandom| && |vAddr| < nNodes
        invariant n <= |vRandom| == |s.vRandom| && RandomLinked(Abs())
        invariant AddrManRun.GetAddrFrom(Abs(), n, nNodes, now, dice, vAddr) == AddrManRun.GetAddr(s, now, dice)
        decreases |s.vRandom| - n
      {
        var pos := AddrManRun.RandomPos(n, |vRandom|, dice(n));
        SwapLength(Abs(), n, pos);
        SwapRandom(n, pos);
        assert vRandom[n] in mapInfo;
        var ai := mapInfo[vRandom[n]];
        if !ai.IsTerrible(now) {
          vAddr := vAddr + [ai.address];
        }
        n := n + 1;
      }
    }

    // `rnd` stands for the random bucket Good_ starts its search from.
    method ResolveCollisions(now: int, rnd: int -> nat)
      requires Valid()
      modifies this, vvTried, vvNew
      ensures Valid() && Abs() == AddrManRun.ResolveCollisions(net, old(Abs()), now)
    {
      hide Inv, TableOf, AddrManOps.Good, AddrManRun.ResolveOne;
      ghost var s := Abs();
      var todo := triedCollisions;
      while todo != {}
        invariant Valid()
        invariant AddrManRun.ResolveFrom(net, Abs(), todo, now) == AddrManRun.ResolveCollisions(net, s, now)
        decreases |todo|
      {
        AddrManRun.LeastExists(todo);
        var id :| id in todo && AddrManRun.Least(id, todo);
        AddrManRun.LeastUnique(todo, id);
        ResolveOne(id, now, rnd(id));
        todo := todo - {id};
      }
    }

    method ResolveOne(id: int, now: int, nRnd: nat)
      requires Valid()
      modifies this, vvTried, vvNew
      ensures Valid() && Abs() == AddrManRun.ResolveOne(net, old(Abs()), id, now)
    {
      hide Inv, TableOf, AddrManOps.Good, TriedSlot;
      ghost var s := Abs();
      AddrManRun.ResolveOneKeeps(net, s, id, now);
      var eraseCollision := false;
      if id !in mapInfo {
        eraseCollision := true;
      } else {
        var slot := TriedSlot(net, nKey, mapInfo[id].Service());
        SlotInTried(net, nKey, mapInfo[id].Service());
        TableAt(vvTried, slot);
        if !net.isValid(mapInfo[id].Addr()) {
          eraseCollision := true;
        } else if vvTried[slot.bucket, slot.pos] != -1 {
          AddrManRun.OccupantKnown(net, s, slot);
          var infoOld := mapInfo[vvTried[slot.bucket, slot.pos]];
          if now - infoOld.nLastSuccess < REPLACEMENT_HOURS * (60 * 60) {
            eraseCollision := true;
          } else if now - infoOld.nLastTry < REPLACEMENT_HOURS * (60 * 60) {
            if now - infoOld.nLastTry > 60 {
              Good(mapInfo[id].Service(), false, now, nRnd);
              eraseCollision := true;
            }
          }
        } else {
          Good(mapInfo[id].Service(), false, now, nRnd);
          eraseCollision := true;
        }
      }
      if eraseCollision {
        triedCollisions := triedCollisions - {id};
      }
    }

    // SelectTriedCollision_ with the randomly selected element given, if there is any.
    method SelectTriedCollision(pick: int) returns (info: Option<Info>)
      requires Valid() && (triedCollisions != {} ==> pick in triedCollisions)
      modifies this
      ensures Valid() && (Abs(), info) == AddrManRun.SelectTriedCollision(net, old(Abs()), pick)
    {
      hide Inv, TableOf;
      ghost var s := Abs();
      if triedCollisions == {} {
        return None;
      }
      AddrManRun.ApplyKeeps(net, s, AddrManRun.OpSelect(pick));
      if pick !in mapInfo {
        triedCollisions := triedCollisions - {pick};
        return None;
      }
      var slot := TriedSlot(net, nKey, mapInfo[pick].Service());
      AddrManRun.CollisionIsReal(net, s, pick);
      SlotInTried(net, nKey, mapInfo[pick].Service());
      TableAt(vvTried, slot);
      AddrManRun.OccupantKnown(net, s, slot);
      var idOld := vvTried[slot.bucket, slot.pos];
      assert idOld != -1;
      info := Some(mapInfo[idOld]);
    }

    method Clear(key: nat)
      requires Shape()
      modifies this, vvTried, vvNew
      ensures Abs() == AddrManSerial.Clear(old(Abs()), key)
    {
      vRandom := [];
      nKey := key;
      ClearTable(vvNew);
      ClearTable(vvTried);
      nIdCount, nTried, nNew, nLastGood := 0, 0, 0, 1;
      mapInfo, mapAddr := map[], map[];
    }

    // The loops of Serialize over mapInfo: all new entries, and the position of each.
    method SerializeNew() returns (tokens: seq<Token>, mapUnkIds: map<int, int>)
      requires Valid()
      ensures
        var ids := Order(mapInfo.Keys);
        && (forall i | 0 <= i < |SelectNew(Abs(), ids)| :: SelectNew(Abs(), ids)[i] in mapInfo)
        && tokens == Entries(Abs(), SelectNew(Abs(), ids)) && mapUnkIds == UnkIds(Abs(), ids)
    {
      hide Inv, TableOf, Order, Save;
      ghost var s := Abs();
      ghost var done: seq<int> := [];
      var todo := mapInfo.Keys;
      var nIds := 0;
      tokens, mapUnkIds := [], map[];
      assert done + Order(todo) == Order(todo);
      OrderOfNone();
      hide Entries, SelectNew, UnkIds;
      while todo != {}
        invariant done + Order(todo) == Order(mapInfo.Keys) && todo <= mapInfo.Keys
        invariant forall i | 0 <= i < |SelectNew(s, done)| :: SelectNew(s, done)[i] in s.mapInfo
        invariant tokens == Entries(s, SelectNew(s, done)) && mapUnkIds == UnkIds(s, done)
        invariant nIds == |SelectNew(s, done)|
        decreases |todo|
      {
        AddrManRun.LeastExists(todo);
        var id :| id in todo && AddrManRun.Least(id, todo);
        SelectNewNext(net, s, done, id, todo);
        EntriesNext(s, SelectNew(s, done), id);
        mapUnkIds := mapUnkIds[id := nIds];
        if mapInfo[id].nRefCount != 0 {
          assert nIds != nNew;
          tokens := tokens + [Entry(Save(mapInfo[id]))];
          nIds := nIds + 1;
        }
        done := done + [id];
        todo := todo - {id};
      }
      assert done + [] == done;
    }

    method SerializeTried() returns (tokens: seq<Token>)
      requires Valid()
      ensures
        var ids := Order(mapInfo.Keys);
        && (forall i | 0 <= i < |SelectTried(Abs(), ids)| :: SelectTried(Abs(), ids)[i] in mapInfo)
        && tokens == Entries(Abs(), SelectTried(Abs(), ids))
    {
      hide Inv, TableOf, Order, Save;
      ghost var s := Abs();
      ghost var done: seq<int> := [];
      var todo := mapInfo.Keys;
      var nIds := 0;
      tokens := [];
      assert done + Order(todo) == Order(todo);
      OrderOfNone();
      hide Entries, SelectTried;
      while todo != {}
        invariant done + Order(todo) == Order(mapInfo.Keys) && todo <= mapInfo.Keys
        invariant forall i | 0 <= i < |SelectTried(s, done)| :: SelectTried(s, done)[i] in s.mapInfo
        invariant tokens == Entries(s, SelectTried(s, done)) && nIds == |SelectTried(s, done)|
        decreases |todo|
      {
        AddrManRun.LeastExists(todo);
        var id :| id in todo && AddrManRun.Least(id, todo);
        SelectTriedNext(net, s, done, id, todo);
        EntriesNext(s, SelectTried(s, done), id);
        if mapInfo[id].fInTried {
          assert nIds != nTried;
          tokens := tokens + [Entry(Save(mapInfo[id]))];
          nIds := nIds + 1;
        }
        done := done + [id];
        todo := todo - {id};
      }
      assert done + [] == done;
    }

    method BucketSize(mapUnkIds: map<int, int>, bucket: nat) returns (nSize: nat)
      requires Shape() && bucket < NEW_BUCKET_COUNT
      requires Covers(Abs().vvNew, mapUnkIds)
      ensures nSize == |BucketTokens(Abs().vvNew, mapUnkIds, bucket, 0)|
    {
      hide TableOf;
      nSize := 0;
      ghost var table := TableOf(vvNew);
      for i := 0 to BUCKET_SIZE
        invariant nSize + |BucketTokens(table, mapUnkIds, bucket, i)| == |BucketTokens(table, mapUnkIds, bucket, 0)|
      {
        TableAt(vvNew, Slot(bucket, i));
        CoversAt(table, mapUnkIds, Slot(bucket, i));
        if vvNew[bucket, i] != -1 {
          nSize := nSize + 1;
        }
      }
    }

    method BucketIndexes(mapUnkIds: map<int, int>, bucket: nat) returns (indexes: seq<Token>)
      requires Shape() && bucket < NEW_BUCKET_COUNT
      requires Covers(Abs().vvNew, mapUnkIds)
      ensures indexes == BucketTokens(Abs().vvNew, mapUnkIds, bucket, 0)
    {
      hide TableOf, BucketTokens;
      indexes := [];
      ghost var table := TableOf(vvNew);
      for i := 0 to BUCKET_SIZE
        invariant indexes + BucketTokens(table, mapUnkIds, bucket, i) == BucketTokens(table, mapUnkIds, bucket, 0)
      {
        TableAt(vvNew, Slot(bucket, i));
        CoversAt(table, mapUnkIds, Slot(bucket, i));
        IndexesNext(table, mapUnkIds, bucket, i, indexes);
        if vvNew[bucket, i] != -1 {
          indexes := indexes + [Num(mapUnkIds[vvNew[bucket, i]])];
        }
      }
      IndexesEnd(table, mapUnkIds, bucket, indexes);
    }

    // The positions of the new table, bucket by bucket.
    method SerializeTable(mapUnkIds: map<int, int>) returns (tokens: seq<Token>)
      requires Shape() && Covers(Abs().vvNew, mapUnkIds)
      ensures tokens == TableTokens(Abs().vvNew, mapUnkIds, 0)
    {
      hide TableOf, BucketTokens, TableTokens;
      tokens := [];
      ghost var table := TableOf(vvNew);
      for bucket := 0 to NEW_BUCKET_COUNT
        invariant tokens + TableTokens(table, mapUnkIds, bucket) == TableTokens(table, mapUnkIds, 0)
      {
        var nSize := BucketSize(mapUnkIds, bucket);
        var indexes := BucketIndexes(mapUnkIds, bucket);
        TableNext(table, mapUnkIds, bucket, tokens);
        tokens := tokens + [Num(nSize)] + indexes;
      }
      TableEnd(table, mapUnkIds, tokens);
    }

    method Serialize() returns (tokens: seq<Token>)
      requires Valid()
      ensures tokens == AddrManSerial.Serialize(Abs())
    {
      hide Inv, TableOf;
      var newTokens, mapUnkIds := SerializeNew();
      var triedTokens := SerializeTried();
      forall slot | slot in Abs().vvNew
        ensures Abs().vvNew[slot] in mapUnkIds.Keys
      {
        NewOwner(net, Abs(), slot);
        IndexOf(net, Abs(), Abs().vvNew[slot]);
      }
      var tableTokens := SerializeTable(mapUnkIds);
      tokens := [Num(1), Num(32), Key(nKey), Num(nNew), Num(nTried), Num(FlipBit30(NEW_BUCKET_COUNT))]
        + (newTokens + (triedTokens + tableTokens));
    }

    method ReadNewEntries(tokens: seq<Token>, usable: bool) returns (ok: bool, rest: seq<Token>)
      requires Shape()
      modifies this, vvNew
      ensures
        var read := ReadNew(net, old(Abs()), tokens, 0, old(nNew), usable);
        ok == read.Done? && (ok ==> Abs() == read.state && rest == read.rest)
    {
      hide TableOf, AddrManSerial.LoadNew;
      rest := tokens;
      var n := 0;
      while n < nNew
        invariant nNew == old(nNew)
        invariant ReadNew(net, Abs(), rest, n, nNew, usable) == ReadNew(net, old(Abs()), tokens, 0, nNew, usable)
      {
        if rest == [] || !rest[0].Entry? {
          return false, rest;
        }
        LoadNew(rest[0].saved, n, usable);
        rest := rest[1..];
        n := n + 1;
      }
      ok := true;
    }

    method LoadNew(saved: Saved, n: nat, usable: bool)
      requires Shape()
      modifies this, vvNew
      ensures Abs() == AddrManSerial.LoadNew(net, old(Abs()), saved, n, usable) && nNew == old(nNew)
    {
      hide TableOf;
      var info := Load(saved, |vRandom|);
      mapInfo := mapInfo[n := info];
      mapAddr := mapAddr[info.Addr() := n];
      vRandom := vRandom + [n];
      if !usable {
        var bucket := GetNewBucket(net, nKey, info.Service(), info.source);
        var slot := NewSlotIn(net, nKey, info.Service(), bucket);
        SlotInNew(net, nKey, info.Service(), bucket);
        TableAt(vvNew, slot);
        if vvNew[slot.bucket, slot.pos] == -1 {
          Put(vvNew, slot, n);
          mapInfo := mapInfo[n := info.(nRefCount := info.nRefCount + 1)];
        }
      }
    }

    method ReadTriedEntries(tokens: seq<Token>) returns (ok: bool, rest: seq<Token>)
      requires Shape() && nIdCount >= 0
      modifies this, vvTried
      ensures
        var read := ReadTried(net, old(Abs()), tokens, 0, old(nTried));
        ok == read.Done? && (ok ==> Abs() == read.state && rest == read.rest)
    {
      hide TableOf, AddrManSerial.LoadTried;
      rest := tokens;
      var n := 0;
      var count := nTried;
      while n < count
        invariant nIdCount >= 0
        invariant ReadTried(net, Abs(), rest, n, count) == ReadTried(net, old(Abs()), tokens, 0, count)
      {
        if rest == [] || !rest[0].Entry? {
          return false, rest;
        }
        LoadTried(rest[0].saved);
        rest := rest[1..];
        n := n + 1;
      }
      ok := true;
    }

    method LoadTried(saved: Saved)
      requires Shape() && nIdCount >= 0
      modifies this, vvTried
      ensures Abs() == AddrManSerial.LoadTried(net, old(Abs()), saved) && nIdCount >= 0
    {
      hide TableOf;
      var info := Load(saved, |vRandom|);
      var slot := TriedSlot(net, nKey, info.Service());
      SlotInTried(net, nKey, info.Service());
      TableAt(vvTried, slot);
      if vvTried[slot.bucket, slot.pos] == -1 {
        info := info.(fInTried := true);
        vRandom := vRandom + [nIdCount];
        mapInfo := mapInfo[nIdCount := info];
        mapAddr := mapAddr[info.Addr() := nIdCount];
        Put(vvTried, slot, nIdCount);
        nIdCount := nIdCount + 1;
      } else {
        nTried := nTried - 1;
      }
    }

    method ReadBuckets(tokens: seq<Token>, buckets: int, usable: bool) returns (ok: bool, rest: seq<Token>)
      requires Shape() && (usable ==> buckets == NEW_BUCKET_COUNT)
      modifies this, vvNew
      ensures
        var read := ReadTable(net, old(Abs()), tokens, 0, buckets, usable);
        ok == read.Done? && (ok ==> Abs() == read.state && rest == read.rest)
    {
      hide TableOf, LoadRef, ReadBucket;
      rest := tokens;
      var bucket := 0;
      while bucket < buckets
        invariant 0 <= bucket
        invariant ReadTable(net, Abs(), rest, bucket, buckets, usable) == ReadTable(net, old(Abs()), tokens, 0, buckets, usable)
      {
        if rest == [] || !rest[0].Num? {
          return false, rest;
        }
        var size := rest[0].n;
        ok, rest := ReadOneBucket(rest[1..], bucket, size, usable);
        if !ok {
          return;
        }
        bucket := bucket + 1;
      }
      ok := true;
    }

    method ReadOneBucket(tokens: seq<Token>, bucket: nat, size: int, usable: bool) returns (ok: bool, rest: seq<Token>)
      requires Shape() && (usable ==> bucket < NEW_BUCKET_COUNT)
      modifies this, vvNew
      ensures
        var read := ReadBucket(net, old(Abs()), tokens, bucket, 0, size, usable);
        ok == read.Done? && (ok ==> Abs() == read.state && rest == read.rest)
    {
      hide TableOf, LoadRef;
      rest := tokens;
      var n := 0;
      while n < size
        invariant 0 <= n
        invariant ReadBucket(net, Abs(), rest, bucket, n, size, usable)
               == ReadBucket(net, old(Abs()), tokens, bucket, 0, size, usable)
      {
        if rest == [] || !rest[0].Num? {
          return false, rest;
        }
        LoadReference(bucket, rest[0].n, usable);
        rest := rest[1..];
        n := n + 1;
      }
      ok := true;
    }

    method LoadReference(bucket: nat, index: int, usable: bool)
      requires Shape() && (usable ==> bucket < NEW_BUCKET_COUNT)
      modifies this, vvNew
      ensures Abs() == LoadRef(net, old(Abs()), bucket, index, usable)
    {
      hide TableOf;
      if 0 <= index < nNew && index in mapInfo && usable {
        var slot := NewSlotIn(net, nKey, mapInfo[index].Service(), bucket);
        SlotInNew(net, nKey, mapInfo[index].Service(), bucket);
        TableAt(vvNew, slot);
        if vvNew[slot.bucket, slot.pos] == -1 && mapInfo[index].nRefCount < NEW_BUCKETS_PER_ADDRESS {
          mapInfo := mapInfo[index := mapInfo[index].(nRefCount := mapInfo[index].nRefCount + 1)];
          Put(vvNew, slot, index);
        }
      }
    }

    // The last loop of Unserialize.
    method PruneEntries()
      requires Shape() && RandomLinked(Abs())
      modifies this
      ensures Abs() == Prune(old(Abs()), Order(old(mapInfo).Keys))
    {
      hide TableOf, RandomLinked, AddrManState.Delete;
      var todo := mapInfo.Keys;
      while todo != {}
        invariant RandomLinked(Abs())
        invariant Prune(Abs(), Order(todo)) == Prune(old(Abs()), Order(old(mapInfo).Keys))
        decreases |todo|
      {
        AddrManRun.LeastExists(todo);
        var id :| id in todo && AddrManRun.Least(id, todo);
        AddrManRun.LeastUnique(todo, id);
        OrderNext(todo, id);
        if id in mapInfo && !mapInfo[id].fInTried && mapInfo[id].nRefCount == 0 {
          Delete(id);
        }
        todo := todo - {id};
      }
    }

    method ReadStream(tokens: seq<Token>, nUBuckets: int, usable: bool) returns (ok: bool)
      requires Shape() && nNew >= 0 && (usable ==> nUBuckets == NEW_BUCKET_COUNT)
      modifies this, vvTried, vvNew
      ensures
        var read := ReadBody(net, old(Abs()), tokens, nUBuckets, usable);
        ok == read.Done? && (ok ==> Abs() == read.state)
    {
      hide TableOf, ReadNew, ReadTried, ReadTable;
      var rest;
      NewCountKept(net, Abs(), tokens, 0, nNew, usable);
      ok, rest := ReadNewEntries(tokens, usable);
      if !ok {
        return;
      }
      nIdCount := nNew;
      ok, rest := ReadTriedEntries(rest);
      if !ok {
        return;
      }
      ok, rest := ReadBuckets(rest, nUBuckets, usable);
    }

    // False stands for the exceptions thrown on a short stream or a wrong key size.
    method Unserialize(tokens: seq<Token>, key: nat) returns (ok: bool)
      requires Shape()
      requires |tokens| >= 4 && tokens[3].Num? ==> tokens[3].n >= 0
      modifies this, vvTried, vvNew
      ensures ok <==> AddrManSerial.Unserialize(net, old(Abs()), tokens).Some?
      ensures ok ==> Abs() == AddrManSerial.Unserialize(net, old(Abs()), tokens).value
    {
      hide TableOf, ReadBody, Prune, FlipBit30, RandomLinked, Order;
      ReadAllLinked(net, Abs(), tokens);
      Clear(key);
      if !HeaderOk(tokens) {
        return false;
      }
      nKey, nNew, nTried := tokens[2].key, tokens[3].n, tokens[4].n;
      var nUBuckets := tokens[5].n;
      if tokens[0].n != 0 {
        nUBuckets := FlipBit30(nUBuckets);
      }
      ok := ReadStream(tokens[6..], nUBuckets, tokens[0].n == 1 && nUBuckets == NEW_BUCKET_COUNT);
      if ok {
        PruneEntries();
      }
    }
  }

  lemma {:induction false} NewCountKept(net: Network, s: State, tokens: seq<Token>, n: nat, count: int, usable: bool)
    ensures
      var read := ReadNew(net, s, tokens, n, count, usable);
      read.Done? ==> read.state.nNew == s.nNew && read.state.nTried == s.nTried
    decreases count - n
  {
    if n < count && tokens != [] && tokens[0].Entry? {
      NewCountKept(net, LoadNew(net, s, tokens[0].saved, n, usable), tokens[1..], n + 1, count, usable);
    }
  }

  // mapUnkIds knows every id in the table.
  ghost predicate Covers(table: Table, mapUnkIds: map<int, int>) {
    forall slot | slot in table :: table[slot] in mapUnkIds.Keys
  }

  lemma CoversAt(table: Table, mapUnkIds: map<int, int>, slot: Slot)
    requires Covers(table, mapUnkIds)
    ensures slot in table ==> table[slot] in mapUnkIds
  {
  }

  lemma IndexesNext(table: Table, unk: map<int, int>, bucket: nat, i: nat, indexes: seq<Token>)
    requires i < BUCKET_SIZE
    ensures
      var slot := Slot(bucket, i);
      indexes + BucketTokens(table, unk, bucket, i)
        == (if slot in table && table[slot] in unk then indexes + [Num(unk[table[slot]])] else indexes)
           + BucketTokens(table, unk, bucket, i + 1)
  {
  }

  lemma IndexesEnd(table: Table, unk: map<int, int>, bucket: nat, indexes: seq<Token>)
    ensures indexes + BucketTokens(table, unk, bucket, BUCKET_SIZE) == indexes
  {
  }

  lemma TableNext(table: Table, unk: map<int, int>, bucket: nat, tokens: seq<Token>)
    requires bucket < NEW_BUCKET_COUNT
    ensures
      var indexes := BucketTokens(table, unk, bucket, 0);
      tokens + TableTokens(table, unk, bucket)
        == (tokens + [Num(|indexes|)] + indexes) + TableTokens(table, unk, bucket + 1)
  {
    hide BucketTokens;
  }

  lemma TableEnd(table: Table, unk: map<int, int>, tokens: seq<Token>)
    ensures tokens + TableTokens(table, unk, NEW_BUCKET_COUNT) == tokens
  {
  }

  lemma OrderNext(todo: set<int>, id: int)
    requires AddrManRun.Least(id, todo)
    ensures Order(todo) == [id] + Order(todo - {id})
    ensures Order(todo)[0] == id && Order(todo)[1..] == Order(todo - {id})
  {
    AddrManRun.LeastUnique(todo, id);
  }

  method ClearTable(a: array2<int>)
    modifies a
    ensures TableOf(a) == map[]
  {
    for bucket := 0 to a.Length0
      invariant forall b, p | 0 <= b < bucket && 0 <= p < a.Length1 :: a[b, p] == -1
    {
      for entry := 0 to a.Length1
        invariant forall b, p | 0 <= b < bucket && 0 <= p < a.Length1 :: a[b, p] == -1
        invariant forall p | 0 <= p < entry :: a[bucket, p] == -1
      {
        a[bucket, entry] := -1;
      }
    }
  }

  // One step of the first loop of Serialize; its assert holds.
  lemma EntriesNext(s: State, ids: seq<int>, id: int)
    requires id in s.mapInfo && forall i | 0 <= i < |ids| :: ids[i] in s.mapInfo
    ensures forall i | 0 <= i < |ids + [id]| :: (ids + [id])[i] in s.mapInfo
    ensures Entries(s, ids + [id]) == Entries(s, ids) + [Entry(Save(s.mapInfo[id]))]
  {
    hide Save;
  }

  lemma OrderOfNone()
    ensures Order({}) == []
  {
  }

  lemma SelectNewNext(net: Network, s: State, done: seq<int>, id: int, todo: set<int>)
    requires Inv(net, s) && AddrManRun.Least(id, todo) && done + Order(todo) == Order(s.mapInfo.Keys)
    requires id in s.mapInfo
    ensures SelectNew(s, done + [id]) == SelectNew(s, done) + if s.mapInfo[id].nRefCount != 0 then [id] else []
    ensures UnkIds(s, done + [id]) == UnkIds(s, done)[id := |SelectNew(s, done)|]
    ensures s.mapInfo[id].nRefCount != 0 ==> |SelectNew(s, done)| < s.nNew
    ensures done + [id] + Order(todo - {id}) == Order(s.mapInfo.Keys)
  {
    hide Inv;
    AddrManRun.LeastUnique(todo, id);
    assert (done + [id])[..|done|] == done;
    assert Order(todo) == [id] + Order(todo - {id});
    assert done + [id] + Order(todo - {id}) == done + Order(todo);
    WrittenFacts(net, s);
    SelectNewGrows(s, done + [id], Order(todo - {id}));
  }

  lemma {:induction false} SelectNewGrows(s: State, a: seq<int>, b: seq<int>)
    ensures |SelectNew(s, a)| <= |SelectNew(s, a + b)|
  {
    if b == [] {
      assert a + b == a;
    } else {
      SelectNewGrows(s, a, b[..|b| - 1]);
      assert (a + b)[..|a + b| - 1] == a + b[..|b| - 1];
    }
  }

  lemma SelectTriedNext(net: Network, s: State, done: seq<int>, id: int, todo: set<int>)
    requires Inv(net, s) && AddrManRun.Least(id, todo) && done + Order(todo) == Order(s.mapInfo.Keys)
    requires id in s.mapInfo
    ensures SelectTried(s, done + [id]) == SelectTried(s, done) + if s.mapInfo[id].fInTried then [id] else []
    ensures s.mapInfo[id].fInTried ==> |SelectTried(s, done)| < s.nTried
    ensures done + [id] + Order(todo - {id}) == Order(s.mapInfo.Keys)
  {
    hide Inv;
    AddrManRun.LeastUnique(todo, id);
    assert (done + [id])[..|done|] == done;
    assert Order(todo) == [id] + Order(todo - {id});
    assert done + [id] + Order(todo - {id}) == done + Order(todo);
    TriedOrder(net, s);
    SelectTriedGrows(s, done + [id], Order(todo - {id}));
  }

  lemma {:induction false} SelectTriedGrows(s: State, a: seq<int>, b: seq<int>)
    ensures |SelectTried(s, a)| <= |SelectTried(s, a + b)|
  {
    if b == [] {
      assert a + b == a;
    } else {
      SelectTriedGrows(s, a, b[..|b| - 1]);
      assert (a + b)[..|a + b| - 1] == a + b[..|b| - 1];
    }
  }

  // Add_ updates the time, if it is old enough, and the services of a known entry.
  method Refresh(known: Info, address: Address, penalty: int, now: int) returns (info: Info)
    ensures info == AddrManAdd.Refreshed(known, address, penalty, now)
  {
    hide AddrManAdd.Uint32, Arith.Max, AddrManAdd.Merged;
    info := known;
    var fCurrentlyOnline := now - address.nTime < 24 * 60 * 60;
    var nUpdateInterval := if fCurrentlyOnline then 60 * 60 else 24 * 60 * 60;
    if address.nTime != 0
       && (info.address.nTime == 0 || info.address.nTime < address.nTime - nUpdateInterval - penalty) {
      info := info.(address := info.address.(
        nTime := AddrManAdd.Uint32(Arith.Max(0, address.nTime - penalty))));
    }
    info := info.(address := info.address.(nServices := AddrManAdd.Merged(info.address.nServices, address.nServices)));
  }

  // The loop of the stochastic test in Add_.
  method RefFactor(nRefCount: int) returns (nFactor: nat)
    ensures nFactor == AddrManAdd.Factor(nRefCount)
  {
    nFactor := 1;
    var n := 0;
    while n < nRefCount
      invariant 0 <= n && (n <= nRefCount || n == 0) && nFactor == AddrManAdd.Factor(n)
    {
      nFactor := nFactor * 2;
      n := n + 1;
    }
  }

  lemma CountNonNegative(net: Network, s: State)
    requires Inv(net, s)
    ensures s.nIdCount >= 0
  {
  }

  lemma ValidSample(net: Network, s: State, now: int, dice: nat -> nat)
    requires Inv(net, s) && RandomLinked(s)
    ensures Inv(net, AddrManRun.GetAddr(s, now, dice).state)
  {
    hide Inv;
    AddrManRun.GetAddrSamples(net, s, now, dice);
  }

  lemma SwapLength(s: State, n: nat, pos: nat)
    requires RandomLinked(s) && n < |s.vRandom| && pos < |s.vRandom|
    ensures |SwapRandom(s, n, pos).vRandom| == |s.vRandom|
    ensures SwapRandom(s, n, pos).vRandom[n] in SwapRandom(s, n, pos).mapInfo
  {
  }

  lemma PromotedTriable(net: Network, s: State, id: int)
    requires Inv(net, s) && id in s.mapInfo && !s.mapInfo[id].fInTried
    ensures AddrManOps.Triable(net, s, id)
  {
    hide Between;
    AddrManOps.MakeTriedKeeps(net, s, id);
  }

  lemma ScanNone(net: Network, s: State, id: int)
    requires id in s.mapInfo
    ensures ScanNew(net, s, id, 0) == {} && s.vvNew - ScanNew(net, s, id, 0) == s.vvNew
  {
  }

  lemma SlotInTried(net: Network, key: nat, service: Service)
    ensures TriedSlot(net, key, service).bucket < TRIED_BUCKET_COUNT
    ensures TriedSlot(net, key, service).pos < BUCKET_SIZE
  {
  }

  lemma SlotInNew(net: Network, key: nat, service: Service, bucket: nat)
    ensures NewSlotIn(net, key, service, bucket).bucket == bucket
    ensures NewSlotIn(net, key, service, bucket).pos < BUCKET_SIZE
  {
  }

  lemma TableWithout(table: Table, found: set<Slot>, slot: Slot, id: int)
    requires slot !in found
    ensures Holds(table - found, slot, id) <==> Holds(table, slot, id)
    ensures (table - found) - {slot} == table - (found + {slot})
  {
  }

  lemma ScanNext(net: Network, s: State, id: int, n: nat)
    requires id in s.mapInfo
    ensures
      var slot := NewSlotIn(net, s.nKey, s.mapInfo[id].Service(), n);
      && slot !in ScanNew(net, s, id, n)
      && ScanNew(net, s, id, n + 1) == ScanNew(net, s, id, n) + if Holds(s.vvNew, slot, id) then {slot} else {}
  {
    var slot := NewSlotIn(net, s.nKey, s.mapInfo[id].Service(), n);
    forall other
      ensures other in ScanNew(net, s, id, n + 1) <==>
        other in ScanNew(net, s, id, n) || (other == slot && Holds(s.vvNew, slot, id))
    {
    }
  }
}
