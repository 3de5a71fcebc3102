/**
 The operations of the address manager (src/addrman.cpp) as functions on its state, each
 shown to keep the invariant, and the invariant over every run.
 */
module AddrManOps {
  import opened Options
  import opened AddrManState
  import opened AddrManSteps

  // ------------------------------------------------------------------ MakeTried

  function ReentrySlot(net: Network, s: State, id: int): Slot
    requires id in s.mapInfo
  {
    NewSlot(net, s.nKey, s.mapInfo[id].Service(), s.mapInfo[id].source)
  }

  // What the asserts of MakeTried and ClearNew ask for when a tried slot is vacated.
  ghost predicate Evictable(net: Network, s: State, slot: Slot) {
    && slot in s.vvTried && s.vvTried[slot] in s.mapInfo
    && var out := TakeOut(s, slot);
       var target := ReentrySlot(net, s, s.vvTried[slot]);
       && RandomLinked(out)
       && (target in out.vvNew ==> CanUnref(out, out.vvNew[target]))
       && s.vvTried[slot] in ClearNew(out, target).mapInfo
  }

  // Out of the tried slot goes its occupant, into the new slot given by its own source.
  ghost function Evict(net: Network, s: State, slot: Slot): State
    requires Evictable(net, s, slot)
  {
    var target := ReentrySlot(net, s, s.vvTried[slot]);
    Reenter(ClearNew(TakeOut(s, slot), target), s.vvTried[slot], target)
  }

  // The asserts of MakeTried hold.
  ghost predicate Triable(net: Network, s: State, id: int) {
    && id in s.mapInfo
    && var left := LeaveNew(net, s, id);
       var slot := TriedSlot(net, s.nKey, s.mapInfo[id].Service());
       && left.mapInfo[id].nRefCount == 0
       && (slot in left.vvTried ==>
             && Evictable(net, left, slot)
             && id in Evict(net, left, slot).mapInfo
             && slot !in Evict(net, left, slot).vvTried)
  }

  ghost function MakeTried(net: Network, s: State, id: int): State
    requires Triable(net, s, id)
  {
    var slot := TriedSlot(net, s.nKey, s.mapInfo[id].Service());
    var left := LeaveNew(net, s, id);
    EnterTried(if slot in left.vvTried then Evict(net, left, slot) else left, id, slot)
  }

  lemma EvictedUnreferenced(net: Network, s: State, slot: Slot, pending: set<int>, missing: int)
    requires Between(net, s, pending, missing) && slot in s.vvTried
    ensures s.vvTried[slot] in s.mapInfo && s.mapInfo[s.vvTried[slot]].nRefCount == 0
    ensures s.mapInfo[s.vvTried[slot]].fInTried
  {
    assert TriedPlacedAt(net, s, slot);
    var id := s.vvTried[slot];
    forall other | other in s.vvNew
      ensures s.vvNew[other] != id
    {
      assert NewPlacedAt(net, s, other);
    }
    assert Refs(s.vvNew, id) == {};
  }

  // Clearing a slot leaves unreferenced ids alone and changes nothing but new entries.
  lemma ClearForReentry(net: Network, s: State, slot: Slot, pending: set<int>, missing: int, id: int)
    requires Between(net, s, pending, missing)
    requires id in s.mapInfo && s.mapInfo[id].nRefCount == 0
    ensures RandomLinked(s) && (slot in s.vvNew ==> CanUnref(s, s.vvNew[slot]))
    ensures
      var r := ClearNew(s, slot);
      && Between(net, r, pending, missing)
      && r.vvNew == s.vvNew - {slot}
      && r == s.(mapInfo := r.mapInfo, mapAddr := r.mapAddr, vRandom := r.vRandom, nNew := r.nNew, vvNew := r.vvNew)
      && id in r.mapInfo && Stats(r.mapInfo[id]) == Stats(s.mapInfo[id])
      && RecordsKept(s, r) && ForgetsOnly(s, r, slot)
  {
    hide AllSettled, RecordsKept, ForgetsOnly;
    if slot in s.vvNew {
      CanClear(net, s, slot);
      ClearNewShape(s, slot);
      ClearedRecords(s, ClearNew(s, slot), s.vvNew[slot], slot);
    } else {
      assert s.vvNew - {slot} == s.vvNew;
      assert s.mapInfo == s.mapInfo[id := s.mapInfo[id]];
      NothingForgotten(s, s, id, s.mapInfo[id], slot);
    }
    ClearNewBetween(net, s, slot, pending, missing);
  }

  // The only id that may be gone is one whose last reference was in `slot`.
  ghost predicate ForgetsOnly(s: State, r: State, slot: Slot) {
    forall id | id in s.mapInfo && id !in r.mapInfo :: Holds(s.vvNew, slot, id) && s.mapInfo[id].nRefCount == 1
  }

  lemma NothingForgotten(s: State, r: State, id: int, info: Info, slot: Slot)
    requires id in s.mapInfo && r.mapInfo == s.mapInfo[id := info]
    requires Record(info) == Record(s.mapInfo[id])
    ensures RecordsKept(s, r) && ForgetsOnly(s, r, slot) && r.mapInfo.Keys == s.mapInfo.Keys
  {
  }

  lemma ClearedRecords(s: State, r: State, id: int, slot: Slot)
    requires id in s.mapInfo && StatsKept(s, r, s.mapInfo.Keys - {id}) && r.mapInfo.Keys <= s.mapInfo.Keys
    requires id in r.mapInfo ==> Stats(r.mapInfo[id]) == Stats(s.mapInfo[id]).(nRefCount := r.mapInfo[id].nRefCount)
    requires Holds(s.vvNew, slot, id) && (id !in r.mapInfo ==> s.mapInfo[id].nRefCount == 1)
    ensures RecordsKept(s, r) && ForgetsOnly(s, r, slot)
  {
    forall k | k in r.mapInfo
      ensures k in s.mapInfo && Record(r.mapInfo[k]) == Record(s.mapInfo[k])
    {
      assert k in r.mapInfo.Keys;
      assert k != id ==> Stats(r.mapInfo[k]) == Stats(s.mapInfo[k]);
    }
    forall k | k in s.mapInfo && k !in r.mapInfo
      ensures k == id
    {
      assert k != id ==> k in s.mapInfo.Keys - {id};
    }
  }

  // A step that forgets at most the owner of `slot`, between two steps that forget nobody
  // and leave the other references alone.
  lemma ForgettingComposes(s: State, a: State, b: State, r: State, slot: Slot)
    requires RecordsKept(s, a) && a.mapInfo.Keys == s.mapInfo.Keys
    requires slot in a.vvNew && a.vvNew[slot] in a.mapInfo ==>
      && Holds(s.vvNew, slot, a.vvNew[slot]) && a.vvNew[slot] in s.mapInfo
      && a.mapInfo[a.vvNew[slot]].nRefCount == s.mapInfo[a.vvNew[slot]].nRefCount
    requires RecordsKept(a, b) && ForgetsOnly(a, b, slot)
    requires RecordsKept(b, r) && r.mapInfo.Keys == b.mapInfo.Keys
    ensures RecordsKept(s, r) && ForgetsOnly(s, r, slot)
  {
    forall id
      ensures id in s.mapInfo <==> id in a.mapInfo
      ensures id in r.mapInfo <==> id in b.mapInfo
    {
      assert id in s.mapInfo.Keys <==> id in a.mapInfo.Keys;
      assert id in r.mapInfo.Keys <==> id in b.mapInfo.Keys;
    }
  }

  lemma EvictKeeps(net: Network, s: State, slot: Slot, id: int)
    requires Between(net, s, {id}, 1) && slot in s.vvTried
    requires id in s.mapInfo && s.mapInfo[id].nRefCount == 0 && !s.mapInfo[id].fInTried
    ensures Evictable(net, s, slot)
    ensures Between(net, Evict(net, s, slot), {id}, 1)
    ensures
      var r := Evict(net, s, slot);
      var target := ReentrySlot(net, s, s.vvTried[slot]);
      && r.vvTried == s.vvTried - {slot}
      && r.vvNew == s.vvNew[target := s.vvTried[slot]]
      && id in r.mapInfo && Stats(r.mapInfo[id]) == Stats(s.mapInfo[id])
      && r == s.(mapInfo := r.mapInfo, mapAddr := r.mapAddr, vRandom := r.vRandom, nNew := r.nNew, vvNew := r.vvNew,
                 nTried := s.nTried - 1, vvTried := r.vvTried)
  {
    hide Between;
    EvictedUnreferenced(net, s, slot, {id}, 1);
    var evicted := s.vvTried[slot];
    var target := ReentrySlot(net, s, evicted);
    var out := TakeOut(s, slot);
    TakeOutBetween(net, s, slot, {id}, 1);
    assert {id} + {evicted} == {id, evicted};
    ClearForReentry(net, out, target, {id, evicted}, 2, id);
    ClearForReentry(net, out, target, {id, evicted}, 2, evicted);
    var cleared := ClearNew(out, target);
    assert CanRefer(net, cleared, evicted, target);
    ReenterBetween(net, cleared, evicted, target, {id, evicted}, 2);
    assert {id, evicted} - {evicted} == {id};
    assert (s.vvNew - {target})[target := evicted] == s.vvNew[target := evicted];
  }

  lemma EvictForgets(net: Network, s: State, slot: Slot, id: int)
    requires Between(net, s, {id}, 1) && slot in s.vvTried && Evictable(net, s, slot)
    requires id in s.mapInfo && s.mapInfo[id].nRefCount == 0 && !s.mapInfo[id].fInTried
    ensures
      var r := Evict(net, s, slot);
      RecordsKept(s, r) && ForgetsOnly(s, r, ReentrySlot(net, s, s.vvTried[slot]))
  {
    hide Between, ForgetsOnly, RecordsKept;
    EvictedUnreferenced(net, s, slot, {id}, 1);
    var evicted := s.vvTried[slot];
    var target := ReentrySlot(net, s, evicted);
    var out := TakeOut(s, slot);
    TakeOutBetween(net, s, slot, {id}, 1);
    ClearForReentry(net, out, target, {id} + {evicted}, 2, evicted);
    var cleared := ClearNew(out, target);
    var r := Reenter(cleared, evicted, target);
    NothingForgotten(s, out, evicted, out.mapInfo[evicted], target);
    NothingForgotten(cleared, r, evicted, r.mapInfo[evicted], target);
    ForgettingComposes(s, out, cleared, r, target);
  }

  // MakeTried keeps the invariant and satisfies all its asserts.
  lemma MakeTriedKeeps(net: Network, s: State, id: int)
    requires Between(net, s, {}, 0) && id in s.mapInfo && !s.mapInfo[id].fInTried
    ensures Triable(net, s, id)
    ensures Between(net, MakeTried(net, s, id), {}, 0)
  {
    hide Between;
    var slot := TriedSlot(net, s.nKey, s.mapInfo[id].Service());
    LeaveNewBetween(net, s, id);
    var left := LeaveNew(net, s, id);
    if slot in left.vvTried {
      EvictKeeps(net, left, slot, id);
    }
    var room := if slot in left.vvTried then Evict(net, left, slot) else left;
    EnterTriedBetween(net, room, id, slot, {id}, 1);
    assert {id} - {id} == {};
  }

  // ---------------------------------------------------------------- the entries

  // Fields of an entry that no index depends on.
  ghost predicate SamePlace(a: Info, b: Info) {
    && a.Service() == b.Service()
    && a.nRefCount == b.nRefCount
    && a.fInTried == b.fInTried
    && a.nRandomPos == b.nRandomPos
  }

  lemma TouchKeeps(net: Network, s: State, r: State, id: int, info: Info)
    requires Inv(net, s) && id in s.mapInfo && SamePlace(info, s.mapInfo[id])
    requires r == s.(mapInfo := s.mapInfo[id := info], nLastGood := r.nLastGood)
    ensures Inv(net, r)
  {
    hide AllSettled, CollisionsOccupied;
    LinksKept(s, r, id, info);
    PlacementKept(net, s, r, id, info);
    SameTables(s, r);
    TouchSettles(net, s, r, id, info);
    CollisionsKept(net, s, r);
  }

  lemma TouchSettles(net: Network, s: State, r: State, id: int, info: Info)
    requires AllSettled(net, s, {}) && id in s.mapInfo && SamePlace(info, s.mapInfo[id])
    requires r.mapInfo == s.mapInfo[id := info] && r.nKey == s.nKey && r.vvTried == s.vvTried
    ensures AllSettled(net, r, {})
  {
    forall k | k in r.mapInfo
      ensures Settled(net, r, k)
    {
      assert Settled(net, s, k);
    }
  }

  // Collisions stay with occupied slots as long as tried slots stay occupied and ids keep
  // the service they were created with.
  lemma CollisionsKept(net: Network, s: State, r: State)
    requires CollisionsOccupied(net, s)
    requires r.nKey == s.nKey && s.nIdCount <= r.nIdCount && r.triedCollisions <= s.triedCollisions
    requires s.vvTried.Keys <= r.vvTried.Keys
    requires forall id | id in r.mapInfo && id < s.nIdCount ::
      id in s.mapInfo && r.mapInfo[id].Service() == s.mapInfo[id].Service()
    ensures CollisionsOccupied(net, r)
  {
    forall id | id in r.triedCollisions
      ensures 0 <= id < r.nIdCount
      ensures id in r.mapInfo ==> TriedSlot(net, r.nKey, r.mapInfo[id].Service()) in r.vvTried
    {
      assert id in s.triedCollisions;
      if id in r.mapInfo {
        assert TriedSlot(net, s.nKey, s.mapInfo[id].Service()) in s.vvTried.Keys;
      }
    }
  }

  // Find, and the check that the port agrees as well.
  function FindExact(s: State, service: Service): (id: Option<int>)
    ensures id.Some? ==> id.value in s.mapInfo && s.mapInfo[id.value].Service() == service
  {
    if service.addr in s.mapAddr && s.mapAddr[service.addr] in s.mapInfo
       && s.mapInfo[s.mapAddr[service.addr]].Service() == service
    then Some(s.mapAddr[service.addr]) else None
  }

  // ----------------------------------------------------------------------- Good_

  function Succeeded(info: Info, time: int): Info {
    info.(nLastSuccess := time, nLastTry := time, nAttempts := 0)
  }

  function GoodTouched(s: State, id: int, time: int): State
    requires id in s.mapInfo
  {
    s.(mapInfo := s.mapInfo[id := Succeeded(s.mapInfo[id], time)], nLastGood := time)
  }

  ghost function Good(net: Network, s: State, service: Service, testBeforeEvict: bool, time: int): State
    requires Inv(net, s)
  {
    match FindExact(s, service)
    case None => s.(nLastGood := time)
    case Some(id) =>
      var touched := GoodTouched(s, id, time);
      TouchKeeps(net, s, touched, id, Succeeded(s.mapInfo[id], time));
      if s.mapInfo[id].fInTried || ScanNew(net, touched, id, NEW_BUCKET_COUNT) == {} then touched
      else Promote(net, touched, id, testBeforeEvict)
  }

  // Into the tried table, unless somebody is there and should be tested first.
  ghost function Promote(net: Network, s: State, id: int, testBeforeEvict: bool): State
    requires Inv(net, s) && id in s.mapInfo && !s.mapInfo[id].fInTried
  {
    if testBeforeEvict && TriedSlot(net, s.nKey, s.mapInfo[id].Service()) in s.vvTried then
      if |s.triedCollisions| < SET_TRIED_COLLISION_SIZE
      then s.(triedCollisions := s.triedCollisions + {id}) else s
    else
      MakeTriedKeeps(net, s, id);
      MakeTried(net, s, id)
  }

  // The "no bucket found" bail-out of Good_ is unreachable.
  lemma NoBailOut(net: Network, s: State, id: int)
    requires Inv(net, s) && id in s.mapInfo && !s.mapInfo[id].fInTried
    ensures ScanNew(net, s, id, NEW_BUCKET_COUNT) != {}
  {
    ScanFindsAll(net, s, id);
    assert Settled(net, s, id);
  }

  lemma RefsNotKept(table: Table, id: int, slot: Slot)
    ensures forall k | Holds(table - Refs(table, id), slot, k) :: k != id && Holds(table, slot, k)
  {
  }

  // The new table without the id, and with the occupant of its tried slot, if there is one, in the
  // slot given by its own source.
  ghost function NewAfterTried(net: Network, s: State, id: int): Table
    requires id in s.mapInfo
  {
    var slot := TriedSlot(net, s.nKey, s.mapInfo[id].Service());
    var without := s.vvNew - Refs(s.vvNew, id);
    if slot in s.vvTried && s.vvTried[slot] in s.mapInfo then
      var out := s.vvTried[slot];
      without[NewSlot(net, s.nKey, s.mapInfo[out].Service(), s.mapInfo[out].source) := out]
    else without
  }

  // What MakeTried leaves behind.
  lemma MakeTriedEffect(net: Network, s: State, id: int)
    requires Between(net, s, {}, 0) && id in s.mapInfo && !s.mapInfo[id].fInTried
    ensures Triable(net, s, id)
    ensures
      var r := MakeTried(net, s, id);
      && r.vvTried == s.vvTried[TriedSlot(net, s.nKey, s.mapInfo[id].Service()) := id]
      && r.nKey == s.nKey && r.nIdCount == s.nIdCount && r.triedCollisions == s.triedCollisions
      && r.nLastGood == s.nLastGood
      && id in r.mapInfo && Stats(r.mapInfo[id]) == Stats(s.mapInfo[id]).(nRefCount := 0, fInTried := true)
      && r.vvNew == NewAfterTried(net, s, id)
  {
    hide Between, TriedSlot, NewSlot;
    MakeTriedKeeps(net, s, id);
    var slot := TriedSlot(net, s.nKey, s.mapInfo[id].Service());
    LeaveNewBetween(net, s, id);
    hide ScanNew, Refs;
    var left := LeaveNew(net, s, id);
    if slot in left.vvTried {
      EvictKeeps(net, left, slot, id);
      EvictedUnreferenced(net, left, slot, {id}, 1);
      assert (s.vvTried - {slot})[slot := id] == s.vvTried[slot := id];
    }
  }

  // Whom MakeTried can forget: at most the one address whose last reference sits where the
  // evicted entry has to go.
  lemma MakeTriedForgets(net: Network, s: State, id: int)
    requires Between(net, s, {}, 0) && Triable(net, s, id) && !s.mapInfo[id].fInTried
    ensures
      var r := MakeTried(net, s, id);
      var slot := TriedSlot(net, s.nKey, s.mapInfo[id].Service());
      && RecordsKept(s, r)
      && (if slot in s.vvTried && s.vvTried[slot] in s.mapInfo
          then ForgetsOnly(s, r, ReentrySlot(net, s, s.vvTried[slot]))
          else r.mapInfo.Keys == s.mapInfo.Keys)
  {
    hide Between, ForgetsOnly, RecordsKept, TriedSlot, NewSlot;
    var slot := TriedSlot(net, s.nKey, s.mapInfo[id].Service());
    LeaveNewBetween(net, s, id);
    var left := LeaveNew(net, s, id);
    var r := MakeTried(net, s, id);
    if slot in left.vvTried {
      EvictForgets(net, left, slot, id);
      EvictedUnreferenced(net, left, slot, {id}, 1);
      var target := ReentrySlot(net, s, s.vvTried[slot]);
      var room := Evict(net, left, slot);
      NothingForgotten(s, left, id, left.mapInfo[id], target);
      NothingForgotten(room, r, id, r.mapInfo[id], target);
      RefsNotKept(s.vvNew, id, target);
      ForgettingComposes(s, left, room, r, target);
    } else {
      NothingForgotten(s, r, id, r.mapInfo[id], slot);
    }
  }

  // ----------------------------------------------------------- across operations

  // How states of one run are related: the key stays, ids are never reused, an occupied
  // tried slot never becomes empty.
  ghost predicate Follows(s: State, r: State) {
    && r.nKey == s.nKey
    && s.nIdCount <= r.nIdCount
    && s.vvTried.Keys <= r.vvTried.Keys
    && (forall id | id in r.mapInfo && id < s.nIdCount ::
          id in s.mapInfo && r.mapInfo[id].Service() == s.mapInfo[id].Service())
  }

  lemma FollowsTransitive(s: State, a: State, r: State)
    requires Follows(s, a) && Follows(a, r)
    ensures Follows(s, r)
  {
    forall id | id in r.mapInfo && id < s.nIdCount
      ensures id in s.mapInfo && r.mapInfo[id].Service() == s.mapInfo[id].Service()
    {
      assert id in a.mapInfo && id < a.nIdCount;
    }
  }

  // Only nLastGood and the collisions change.
  lemma MetaKeeps(net: Network, s: State, r: State)
    requires Inv(net, s) && r == s.(triedCollisions := r.triedCollisions, nLastGood := r.nLastGood)
    requires CollisionsOccupied(net, r) && |r.triedCollisions| <= SET_TRIED_COLLISION_SIZE
    ensures Inv(net, r) && Follows(s, r)
  {
    hide CollisionsOccupied;
    assert TriedIds(r) == TriedIds(s) && NewIds(r) == NewIds(s);
    forall slot | slot in r.vvTried
      ensures TriedPlacedAt(net, r, slot)
    {
      assert TriedPlacedAt(net, s, slot);
    }
    forall slot | slot in r.vvNew
      ensures NewPlacedAt(net, r, slot)
    {
      assert NewPlacedAt(net, s, slot);
    }
    forall id | id in r.mapInfo
      ensures Settled(net, r, id)
    {
      assert Settled(net, s, id);
    }
  }

  lemma TouchFollows(s: State, r: State, id: int, info: Info)
    requires id in s.mapInfo && info.Service() == s.mapInfo[id].Service()
    requires r == s.(mapInfo := s.mapInfo[id := info], nLastGood := r.nLastGood)
    ensures Follows(s, r)
  {
  }

  lemma PromoteKeeps(net: Network, s: State, id: int, testBeforeEvict: bool)
    requires Inv(net, s) && id in s.mapInfo && !s.mapInfo[id].fInTried
    ensures
      var r := Promote(net, s, id, testBeforeEvict);
      Inv(net, r) && Follows(s, r)
  {
    hide Between;
    var slot := TriedSlot(net, s.nKey, s.mapInfo[id].Service());
    var r := Promote(net, s, id, testBeforeEvict);
    if testBeforeEvict && slot in s.vvTried {
      IdBelowCount(net, s, id);
      MetaKeeps(net, s, r);
    } else {
      MakeTriedKeeps(net, s, id);
      MakeTriedEffect(net, s, id);
      MakeTriedForgets(net, s, id);
      CollisionsKept(net, s, r);
    }
  }

  lemma IdBelowCount(net: Network, s: State, id: int)
    requires Inv(net, s) && id in s.mapInfo
    ensures 0 <= id < s.nIdCount
  {
  }

  lemma GoodKeeps(net: Network, s: State, service: Service, testBeforeEvict: bool, time: int)
    requires Inv(net, s)
    ensures
      var r := Good(net, s, service, testBeforeEvict, time);
      Inv(net, r) && Follows(s, r)
  {
    hide Between, CollisionsOccupied;
    var r := Good(net, s, service, testBeforeEvict, time);
    match FindExact(s, service)
    case None =>
      CollisionsKept(net, s, r);
      MetaKeeps(net, s, r);
    case Some(id) =>
      var info := Succeeded(s.mapInfo[id], time);
      var touched := GoodTouched(s, id, time);
      TouchKeeps(net, s, touched, id, info);
      TouchFollows(s, touched, id, info);
      if !s.mapInfo[id].fInTried {
        PromoteKeeps(net, touched, id, testBeforeEvict);
        FollowsTransitive(s, touched, Promote(net, touched, id, testBeforeEvict));
      }
  }
}
