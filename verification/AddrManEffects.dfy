/**
 What each operation of the address manager (src/addrman.cpp) does to the entry it is about and to
 the tables, said without the functions that compute it.
 */
module AddrManEffects {
  import Arith
  import Bits
  import opened Options
  import opened AddrManState
  import opened AddrManOps
  import opened AddrManAdd
  import opened AddrManRun

  // A service is found exactly if an entry has it, and then it is this one.
  lemma FoundIff(net: Network, s: State, service: Service, id: int)
    requires Inv(net, s)
    ensures FindExact(s, service) == Some(id) <==> id in s.mapInfo && s.mapInfo[id].Service() == service
  {
    if id in s.mapInfo && s.mapInfo[id].Service() == service {
      assert s.mapAddr[s.mapInfo[id].Addr()] == id;
    }
  }

  // Only this entry and the time of the last success change.
  ghost predicate OnlyEntry(s: State, r: State, id: int) {
    && id in s.mapInfo && id in r.mapInfo
    && r == s.(mapInfo := s.mapInfo[id := r.mapInfo[id]], nLastGood := r.nLastGood)
  }

  // --------------------------------------------------------------------- IsTerrible

  // Anybody tried in the last minute is not terrible; of the others, those with a time ten minutes ahead,
  // without a time, not seen for thirty days, without a success after three attempts, or without a
  // success for a week after ten.
  lemma TerribleIff(info: Info, now: int)
    ensures
      var seen := info.address.nTime;
      info.IsTerrible(now) <==>
        && !(info.nLastTry != 0 && now - info.nLastTry <= 60)
        && (|| seen == 0 || seen - now > 600 || now - seen > 2592000
            || (info.nAttempts >= 3 && info.nLastSuccess == 0)
            || (info.nAttempts >= 10 && now - info.nLastSuccess > 604800))
  {
  }

  // ------------------------------------------------------------------------- Good_

  // Both times are set and the failed attempts forgotten; the address, its source and the last counted
  // attempt stay.
  ghost predicate MarkedGood(before: Info, after: Info, time: int) {
    && after.nLastSuccess == time && after.nLastTry == time && after.nAttempts == 0
    && after.address == before.address && after.source == before.source
    && after.nLastCountAttempt == before.nLastCountAttempt
  }

  // Into its tried slot, the occupant of which, if any, leaves the tried table.
  ghost predicate MovedToTried(net: Network, s: State, r: State, id: int)
    requires id in s.mapInfo
  {
    var slot := TriedSlot(net, s.nKey, s.mapInfo[id].Service());
    && id in r.mapInfo && r.mapInfo[id].fInTried && r.mapInfo[id].nRefCount == 0
    && r.vvTried == s.vvTried[slot := id] && r.vvNew == NewAfterTried(net, s, id)
    && r.triedCollisions == s.triedCollisions
    && (slot in s.vvTried ==>
          && s.vvTried[slot] in r.mapInfo
          && !r.mapInfo[s.vvTried[slot]].fInTried && r.mapInfo[s.vvTried[slot]].nRefCount == 1)
  }

  // The collision is recorded, unless ten others are.
  ghost predicate CollisionNoted(s: State, r: State, id: int) {
    && OnlyEntry(s.(triedCollisions := r.triedCollisions), r, id)
    && r.triedCollisions == if |s.triedCollisions| < 10 then s.triedCollisions + {id} else s.triedCollisions
  }

  // Of the other entries nobody's record changes.
  ghost predicate OthersKept(s: State, r: State, id: int) {
    forall k | k in r.mapInfo && k != id :: k in s.mapInfo && Record(r.mapInfo[k]) == Record(s.mapInfo[k])
  }

  lemma GoodUnknown(net: Network, s: State, service: Service, testBeforeEvict: bool, time: int)
    requires Inv(net, s) && forall id | id in s.mapInfo :: s.mapInfo[id].Service() != service
    ensures Good(net, s, service, testBeforeEvict, time) == s.(nLastGood := time)
  {
  }

  // An entry that is tried already is only marked; another one moves into the tried table, or, if its
  // slot is taken and the occupant should be tested first, is noted.
  lemma GoodEffect(net: Network, s: State, id: int, testBeforeEvict: bool, time: int)
    requires Inv(net, s) && id in s.mapInfo
    ensures
      var r := Good(net, s, s.mapInfo[id].Service(), testBeforeEvict, time);
      && id in r.mapInfo && MarkedGood(s.mapInfo[id], r.mapInfo[id], time) && r.nLastGood == time
      && OthersKept(s, r, id)
      && (if s.mapInfo[id].fInTried then OnlyEntry(s, r, id)
          else if testBeforeEvict && TriedSlot(net, s.nKey, s.mapInfo[id].Service()) in s.vvTried
          then CollisionNoted(s, r, id)
          else MovedToTried(net, s, r, id))
  {
    hide Inv, Promote, ScanNew, TriedSlot;
    var service := s.mapInfo[id].Service();
    FoundIff(net, s, service, id);
    var touched := GoodTouched(s, id, time);
    TouchKeeps(net, s, touched, id, Succeeded(s.mapInfo[id], time));
    if !s.mapInfo[id].fInTried {
      NoBailOut(net, touched, id);
      PromoteEffect(net, touched, id, testBeforeEvict);
    }
  }

  lemma PromoteEffect(net: Network, s: State, id: int, testBeforeEvict: bool)
    requires Inv(net, s) && id in s.mapInfo && !s.mapInfo[id].fInTried
    ensures
      var r := Promote(net, s, id, testBeforeEvict);
      && r.nLastGood == s.nLastGood && OthersKept(s, r, id)
      && (if testBeforeEvict && TriedSlot(net, s.nKey, s.mapInfo[id].Service()) in s.vvTried
          then r == s.(triedCollisions := if |s.triedCollisions| < 10 then s.triedCollisions + {id} else s.triedCollisions)
          else MovedToTried(net, s, r, id) && Record(r.mapInfo[id]) == Record(s.mapInfo[id]))
  {
    var r := Promote(net, s, id, testBeforeEvict);
    if !(testBeforeEvict && TriedSlot(net, s.nKey, s.mapInfo[id].Service()) in s.vvTried) {
      PromoteKeeps(net, s, id, testBeforeEvict);
      BetweenIn(net, s);
      MakeTriedEffect(net, s, id);
      MakeTriedForgets(net, s, id);
      TriedEffect(net, s, r, id);
    }
  }

  lemma BetweenIn(net: Network, s: State)
    requires Inv(net, s)
    ensures Between(net, s, {}, 0)
  {
  }

  lemma TriedEffect(net: Network, s: State, r: State, id: int)
    requires Inv(net, s) && Inv(net, r) && id in s.mapInfo && !s.mapInfo[id].fInTried
    requires r.nKey == s.nKey && r.triedCollisions == s.triedCollisions
    requires r.vvTried == s.vvTried[TriedSlot(net, s.nKey, s.mapInfo[id].Service()) := id]
    requires Follows(s, r) && r.vvNew == NewAfterTried(net, s, id)
    requires id in r.mapInfo && Stats(r.mapInfo[id]) == Stats(s.mapInfo[id]).(nRefCount := 0, fInTried := true)
    ensures MovedToTried(net, s, r, id) && Record(r.mapInfo[id]) == Record(s.mapInfo[id])
  {
    var slot := TriedSlot(net, s.nKey, s.mapInfo[id].Service());
    if slot in s.vvTried {
      var out := s.vvTried[slot];
      assert TriedPlacedAt(net, s, slot);
      EvictedIsNew(net, s, r, id, out);
    }
  }

  lemma EvictedIsNew(net: Network, s: State, r: State, id: int, out: int)
    requires Inv(net, s) && Inv(net, r) && id in s.mapInfo && !s.mapInfo[id].fInTried
    requires out in s.mapInfo && s.mapInfo[out].fInTried && r.vvNew == NewAfterTried(net, s, id)
    requires Holds(s.vvTried, TriedSlot(net, s.nKey, s.mapInfo[id].Service()), out)
    ensures out in r.mapInfo && !r.mapInfo[out].fInTried && r.mapInfo[out].nRefCount == 1
  {
    hide TriedSlot;
    var target := NewSlot(net, s.nKey, s.mapInfo[out].Service(), s.mapInfo[out].source);
    assert NewPlacedAt(net, r, target);
    assert Refs(r.vvNew, out) == {target} by {
      forall slot | slot in s.vvNew
        ensures s.vvNew[slot] != out
      {
        assert NewPlacedAt(net, s, slot);
      }
    }
  }

  // ----------------------------------------------------- Attempt_, Connected_, SetServices_

  // The try is noted, and counted as a failure if it should be and there was a success since the last
  // one that was.
  lemma AttemptEffect(net: Network, s: State, id: int, fCountFailure: bool, time: int)
    requires Inv(net, s) && id in s.mapInfo
    ensures
      var before := s.mapInfo[id];
      var r := Attempt(s, before.Service(), fCountFailure, time);
      && OnlyEntry(s, r, id) && r.nLastGood == s.nLastGood
      && var after := r.mapInfo[id];
         && after.nLastTry == time
         && (if fCountFailure && before.nLastCountAttempt < s.nLastGood
             then after.nAttempts == before.nAttempts + 1 && after.nLastCountAttempt == time
             else after.nAttempts == before.nAttempts && after.nLastCountAttempt == before.nLastCountAttempt)
         && after.address == before.address && after.source == before.source
         && after.nLastSuccess == before.nLastSuccess && SamePlace(after, before)
  {
    FoundIff(net, s, s.mapInfo[id].Service(), id);
  }

  // The time is brought up to date if it is more than twenty minutes old.
  lemma ConnectedEffect(net: Network, s: State, id: int, time: int)
    requires Inv(net, s) && id in s.mapInfo && 0 <= time < 0x1_0000_0000
    ensures
      var before := s.mapInfo[id];
      var r := Connected(s, before.Service(), time);
      && OnlyEntry(s, r, id) && r.nLastGood == s.nLastGood
      && r.mapInfo[id] == before.(address := before.address.(nTime := r.mapInfo[id].address.nTime))
      && r.mapInfo[id].address.nTime == if time > before.address.nTime + 1200 then time else before.address.nTime
  {
    FoundIff(net, s, s.mapInfo[id].Service(), id);
  }

  lemma SetServicesEffect(net: Network, s: State, id: int, nServices: bv64)
    requires Inv(net, s) && id in s.mapInfo
    ensures
      var before := s.mapInfo[id];
      var r := SetServices(s, before.Service(), nServices);
      && OnlyEntry(s, r, id) && r.nLastGood == s.nLastGood
      && r.mapInfo[id] == before.(address := before.address.(nServices := nServices))
  {
    FoundIff(net, s, s.mapInfo[id].Service(), id);
  }

  // None of them does anything about a service that no entry has.
  lemma NobodyTouched(s: State, service: Service, fCountFailure: bool, nServices: bv64, time: int)
    requires forall id | id in s.mapInfo :: s.mapInfo[id].Service() != service
    ensures Attempt(s, service, fCountFailure, time) == s
    ensures Connected(s, service, time) == s
    ensures SetServices(s, service, nServices) == s
  {
  }

  // -------------------------------------------------------------------------- Add_

  lemma {:induction false} FactorIs(n: nat)
    ensures Factor(n) == Arith.Pow2(n)
  {
    if n > 0 {
      FactorIs(n - 1);
    }
  }

  // The time of a known address moves forward if what is announced, less the penalty, is newer by more
  // than an hour, or a day if it is not of today; its services are added to.
  ghost predicate Announced(before: Info, after: Info, address: Address, penalty: int, now: int) {
    && after == before.(address := after.address) && after.address.service == before.address.service
    && Bits.IsUnion(after.address.nServices, before.address.nServices, address.nServices)
    && var slack := if now - address.nTime < 86400 then 3600 else 86400;
       if address.nTime != 0 && (before.address.nTime == 0 || before.address.nTime + slack + penalty < address.nTime)
       then after.address.nTime == (if address.nTime < penalty then 0 else address.nTime - penalty) % 0x1_0000_0000
       else after.address.nTime == before.address.nTime
  }

  lemma RefreshedIs(info: Info, address: Address, penalty: int, now: int)
    ensures Announced(info, Refreshed(info, address, penalty, now), address, penalty, now)
  {
    Bits.OrIsUnion(info.address.nServices, address.nServices);
    hide Bits.IsUnion;
  }

  // With a penalty that is not negative and a 32-bit time, the time of an entry never falls.
  lemma TimeNeverFalls(before: Info, after: Info, address: Address, penalty: int, now: int)
    requires Announced(before, after, address, penalty, now) && penalty >= 0 && address.nTime < 0x1_0000_0000
    ensures after.address.nTime >= before.address.nTime
  {
  }

  // The new table gains the reference exactly if the slot is free or its occupant gives way.
  lemma InsertTable(s: State, id: int, slot: Slot, now: int)
    requires Insertable(s, id, slot)
    ensures
      var r := Insert(s, id, slot, now);
      && r.vvTried == s.vvTried && r.triedCollisions == s.triedCollisions
      && (if Holds(s.vvNew, slot, id) then r == s
          else if slot !in s.vvNew || GivesWay(s.mapInfo[s.vvNew[slot]], s.mapInfo[id], now)
          then && r.vvNew == s.vvNew[slot := id]
               && id in r.mapInfo && r.mapInfo[id].nRefCount == s.mapInfo[id].nRefCount + 1
               && Record(r.mapInfo[id]) == Record(s.mapInfo[id])
          else r.vvNew == s.vvNew && (s.mapInfo[id].nRefCount != 0 ==> r == s))
  {
    hide Info.IsTerrible;
    if !Holds(s.vvNew, slot, id) && slot in s.vvNew {
      if GivesWay(s.mapInfo[s.vvNew[slot]], s.mapInfo[id], now) {
        ClearNewShape(s, slot);
        var cleared := ClearNew(s, slot);
        assert id in s.mapInfo.Keys - {s.vvNew[slot]};
        assert Stats(cleared.mapInfo[id]) == Stats(s.mapInfo[id]);
        assert (s.vvNew - {slot})[slot := id] == s.vvNew[slot := id];
      } else if s.mapInfo[id].nRefCount == 0 {
        DeleteShape(s, id);
      }
    }
  }

  // Whether Add_ gives a known address one more reference: there is news, it is not tried and not eight
  // times there already, the dice fall for it, and its slot for this source is free or its occupant
  // terrible.
  ghost predicate Gains(s: State, before: Info, nTime: nat, id: int, slot: Slot, address: Address, now: int, dice: nat) {
    && address.nTime != 0 && (nTime == 0 || address.nTime > nTime)
    && !before.fInTried && 1 <= before.nRefCount < 8 && dice % Arith.Pow2(before.nRefCount) == 0
    && !Holds(s.vvNew, slot, id)
    && (slot in s.vvNew ==> s.vvNew[slot] in s.mapInfo && s.mapInfo[s.vvNew[slot]].IsTerrible(now))
  }

  // Apart from its references the entry of a known address is as announced.
  function Unfiled(info: Info): Info {
    info.(nRefCount := 0, nRandomPos := 0)
  }

  lemma AddKnownEffect(net: Network, s: State, id: int, address: Address, source: NetAddr, nTimePenalty: int, now: int,
                       dice: nat)
    requires Inv(net, s) && net.isRoutable(address.service.addr)
    requires id in s.mapInfo && s.mapInfo[id].Addr() == address.service.addr
    ensures
      var r := Add(net, s, address, source, nTimePenalty, now, dice);
      var before := s.mapInfo[id];
      var penalty := if address.service.addr == source then 0 else nTimePenalty;
      var slot := NewSlot(net, s.nKey, before.Service(), source);
      && id in r.mapInfo && r.vvTried == s.vvTried && r.triedCollisions == s.triedCollisions
      && var after := r.mapInfo[id];
         && Announced(Unfiled(before), Unfiled(after), address, penalty, now)
         && (if Gains(s, before, after.address.nTime, id, slot, address, now, dice)
             then r.vvNew == s.vvNew[slot := id] && after.nRefCount == before.nRefCount + 1
             else r.vvNew == s.vvNew && after.nRefCount == before.nRefCount)
  {
    hide Inv, Info.IsTerrible, NewSlot, Insert, Bits.IsUnion, Refreshed, Announced;
    var penalty := Penalty(address, source, nTimePenalty);
    var before := s.mapInfo[id];
    var info := Refreshed(before, address, penalty, now);
    RefreshedIs(before, address, penalty, now);
    UnfiledAnnounced(before, info, address, penalty, now);
    KnownById(net, s, id);
    FactorIs(before.nRefCount);
    if !(Saturated(info, address) || Unlucky(info.nRefCount, dice)) {
      var refreshed := WithInfo(s, id, info);
      var slot := NewSlot(net, s.nKey, info.Service(), source);
      KnownInsertable(net, s, id, info, source, now);
      InsertTable(refreshed, id, slot, now);
      if slot in s.vvNew {
        OwnerKnown(net, s, slot);
      }
    }
  }

  lemma UnfiledAnnounced(before: Info, after: Info, address: Address, penalty: int, now: int)
    requires Announced(before, after, address, penalty, now)
    ensures Announced(Unfiled(before), Unfiled(after), address, penalty, now)
    ensures after.fInTried == before.fInTried && after.nRefCount == before.nRefCount && after.Service() == before.Service()
    ensures SamePlace(after, before)
  {
    hide Bits.IsUnion;
  }

  lemma KnownById(net: Network, s: State, id: int)
    requires Inv(net, s) && id in s.mapInfo
    ensures s.mapInfo[id].Addr() in s.mapAddr && s.mapAddr[s.mapInfo[id].Addr()] == id
    ensures 0 <= s.mapInfo[id].nRefCount <= 8 && (!s.mapInfo[id].fInTried ==> s.mapInfo[id].nRefCount >= 1)
  {
    assert Settled(net, s, id);
  }

  // An address that is kept for the first time is entered as announced, less the penalty, with one
  // reference; one that is not kept leaves the tables as they were.
  lemma AddUnknownEffect(net: Network, s: State, address: Address, source: NetAddr, nTimePenalty: int, now: int,
                         dice: nat)
    requires Inv(net, s) && net.isRoutable(address.service.addr) && address.service.addr !in s.mapAddr
    ensures
      var r := Add(net, s, address, source, nTimePenalty, now, dice);
      var penalty := if address.service.addr == source then 0 else nTimePenalty;
      var nTime := (if address.nTime < penalty then 0 else address.nTime - penalty) % 0x1_0000_0000;
      var slot := NewSlot(net, s.nKey, address.service, source);
      && r.vvTried == s.vvTried && r.triedCollisions == s.triedCollisions
      && (if address.service.addr in r.mapAddr
          then && r.mapAddr[address.service.addr] == s.nIdCount && r.vvNew == s.vvNew[slot := s.nIdCount]
               && s.nIdCount in r.mapInfo
               && var info := r.mapInfo[s.nIdCount];
                  && info == Info(address.(nTime := nTime), source, 0, 0, 0, 0, 1, false, info.nRandomPos)
          else r.vvNew == s.vvNew)
  {
    hide Inv, Info.IsTerrible, NewSlot, Insert, Follows, RecordsKept;
    var penalty := Penalty(address, source, nTimePenalty);
    var created := Created(s, address, source, penalty);
    var slot := NewSlot(net, s.nKey, address.service, source);
    NextIdUnused(net, s);
    UnknownInsertable(net, s, address, source, penalty, now);
    InsertTable(created, s.nIdCount, slot, now);
    InsertEffect(net, created, s.nIdCount, slot, now);
    AddUnknownKeeps(net, s, address, source, penalty, now);
    var r := AddUnknown(net, s, address, source, penalty, now);
    OnlyOwnerOfAddress(net, s, created, r, address.service.addr);
    if slot in s.vvNew {
      OwnerKnown(net, s, slot);
    }
    if s.nIdCount in r.mapInfo {
      KnownById(net, r, s.nIdCount);
    }
  }

  lemma AddUnroutable(net: Network, s: State, address: Address, source: NetAddr, nTimePenalty: int, now: int, dice: nat)
    requires Inv(net, s) && !net.isRoutable(address.service.addr)
    ensures Add(net, s, address, source, nTimePenalty, now, dice) == s
  {
  }
}
