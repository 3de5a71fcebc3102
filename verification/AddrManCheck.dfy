/**
 Check_ of src/addrman.cpp, the debug check of the address manager: it returns 0 in every
 state that has the invariant, and so after every run.
 */
module AddrManCheck {
  import opened AddrManState
  import opened AddrManRun
  import opened AddrManSerial
  import opened AddrManBounds
  import opened AddrMan

  // What Check_ checks, said outright.
  ghost predicate Consistent(net: Network, s: State) {
    && |s.vRandom| == s.nTried + s.nNew
    && (forall id | id in s.mapInfo :: EntryCode(s, id) == 0)
    && s.nTried == |TriedIds(s)|
    && s.nNew == |NewIds(s)|
    && TriedPlaced(net, s)
    && NewPlaced(net, s)
    && (forall id | IsTriedId(s, id) :: Holds(s.vvTried, TriedSlot(net, s.nKey, s.mapInfo[id].Service()), id))
    && (forall id | IsNewId(s, id) :: s.mapInfo[id].nRefCount == |Refs(s.vvNew, id)|)
    && s.nKey != 0
  }

  datatype Census = Census(setTried: set<int>, mapNew: map<int, int>)

  // The two sets Check_ builds from the entries in `done`.
  ghost predicate Counted(s: State, done: set<int>, census: Census) {
    && (forall id :: id in census.setTried <==> id in done && IsTriedId(s, id))
    && (forall id :: id in census.mapNew <==> id in done && IsNewId(s, id))
    && (forall id | id in census.mapNew && id in s.mapInfo :: census.mapNew[id] == s.mapInfo[id].nRefCount)
  }

  // The conditions of the first loop on one entry, with the codes of the source.
  function EntryCode(s: State, id: int): int
    requires id in s.mapInfo
  {
    var info := s.mapInfo[id];
    if info.fInTried && info.nLastSuccess == 0 then -1
    else if info.fInTried && info.nRefCount != 0 then -2
    else if !info.fInTried && (info.nRefCount < 0 || info.nRefCount > NEW_BUCKETS_PER_ADDRESS) then -3
    else if !info.fInTried && info.nRefCount == 0 then -4
    else if (if info.Addr() in s.mapAddr then s.mapAddr[info.Addr()] else 0) != id then -5
    else if info.nRandomPos < 0 || info.nRandomPos >= |s.vRandom| || s.vRandom[info.nRandomPos] != id then -14
    else if info.nLastTry < 0 then -6
    else if info.nLastSuccess < 0 then -8
    else 0
  }

  lemma EntryConsistent(net: Network, s: State, id: int)
    requires Inv(net, s) && AllSane(s) && id in s.mapInfo
    ensures EntryCode(s, id) == 0
  {
    hide Inv;
    KindOf(net, s, id);
    AddrOf(net, s, id);
    CountOf(net, s, id);
    CountInRange(net, s, id);
    RandomAt(net, s, id);
  }

  lemma RandomAt(net: Network, s: State, id: int)
    requires Inv(net, s) && id in s.mapInfo
    ensures 0 <= s.mapInfo[id].nRandomPos < |s.vRandom| && s.vRandom[s.mapInfo[id].nRandomPos] == id
  {
  }

  // vRandom is as long as there are entries.
  lemma RandomSize(s: State)
    requires RandomLinked(s) && s.nTried == |TriedIds(s)| && s.nNew == |NewIds(s)|
    ensures |s.vRandom| == s.nTried + s.nNew
  {
    forall id
      ensures id in s.vRandom <==> id in s.mapInfo.Keys
    {
      if id in s.vRandom {
        var i :| 0 <= i < |s.vRandom| && s.vRandom[i] == id;
      }
      if id in s.mapInfo {
        var i := s.mapInfo[id].nRandomPos;
        assert s.vRandom[i] == id;
      }
    }
    forall i, j | 0 <= i < j < |s.vRandom|
      ensures s.vRandom[i] != s.vRandom[j]
    {
      assert s.mapInfo[s.vRandom[i]].nRandomPos == i;
      assert s.mapInfo[s.vRandom[j]].nRandomPos == j;
    }
    DistinctSize(s.vRandom, s.mapInfo.Keys);
    assert s.mapInfo.Keys == TriedIds(s) + NewIds(s);
  }

  // The invariant makes every check succeed.
  lemma InvConsistent(net: Network, s: State)
    requires Inv(net, s) && AllSane(s) && s.nKey != 0
    ensures Consistent(net, s)
  {
    hide Inv, AllSane, EntryCode;
    CountsOf(net, s);
    LinkedOf(net, s);
    RandomSize(s);
    PlacedOf(net, s);
    forall id | id in s.mapInfo
      ensures EntryCode(s, id) == 0
    {
      EntryConsistent(net, s, id);
    }
    forall id | IsTriedId(s, id)
      ensures Holds(s.vvTried, TriedSlot(net, s.nKey, s.mapInfo[id].Service()), id)
    {
      AddrOf(net, s, id);
    }
    forall id | IsNewId(s, id)
      ensures s.mapInfo[id].nRefCount == |Refs(s.vvNew, id)|
    {
      CountOf(net, s, id);
    }
  }

  lemma PlacedOf(net: Network, s: State)
    requires Inv(net, s)
    ensures TriedPlaced(net, s) && NewPlaced(net, s)
  {
  }

  lemma CountedNext(s: State, done: set<int>, census: Census, n: int)
    requires Counted(s, done, census) && n in s.mapInfo && n !in done
    ensures Counted(s, done + {n},
      if s.mapInfo[n].fInTried then Census(census.setTried + {n}, census.mapNew)
      else Census(census.setTried, census.mapNew[n := s.mapInfo[n].nRefCount]))
  {
  }

  // The conditions of the first loop on the entry n.
  method CheckEntry(m: AddrMan, n: int) returns (err: int)
    requires n in m.mapInfo
    ensures err == EntryCode(m.Abs(), n)
  {
    var info := m.mapInfo[n];
    if info.fInTried {
      if info.nLastSuccess == 0 {
        return -1;
      }
      if info.nRefCount != 0 {
        return -2;
      }
    } else {
      if info.nRefCount < 0 || info.nRefCount > NEW_BUCKETS_PER_ADDRESS {
        return -3;
      }
      if info.nRefCount == 0 {
        return -4;
      }
    }
    if (if info.Addr() in m.mapAddr then m.mapAddr[info.Addr()] else 0) != n {
      return -5;
    }
    if info.nRandomPos < 0 || info.nRandomPos >= |m.vRandom| || m.vRandom[info.nRandomPos] != n {
      return -14;
    }
    if info.nLastTry < 0 {
      return -6;
    }
    if info.nLastSuccess < 0 {
      return -8;
    }
    err := 0;
  }

  // The first loop.
  method CheckEntries(m: AddrMan) returns (err: int, setTried: set<int>, mapNew: map<int, int>)
    requires m.Shape()
    ensures err == 0 <==> forall id | id in m.mapInfo :: EntryCode(m.Abs(), id) == 0
    ensures err == 0 ==> Counted(m.Abs(), m.mapInfo.Keys, Census(setTried, mapNew))
  {
    hide TableOf, EntryCode, Counted;
    ghost var s := m.Abs();
    setTried, mapNew := {}, map[];
    var todo := m.mapInfo.Keys;
    ghost var done: set<int> := {};
    CountedNone(s);
    while todo != {}
      invariant todo <= m.mapInfo.Keys && done == m.mapInfo.Keys - todo
      invariant forall id | id in done :: EntryCode(s, id) == 0
      invariant Counted(s, done, Census(setTried, mapNew))
      decreases |todo|
    {
      LeastExists(todo);
      var n :| n in todo && Least(n, todo);
      CountedNext(s, done, Census(setTried, mapNew), n);
      err := CheckEntry(m, n);
      if err != 0 {
        return;
      }
      if m.mapInfo[n].fInTried {
        setTried := setTried + {n};
      } else {
        mapNew := mapNew[n := m.mapInfo[n].nRefCount];
      }
      done := done + {n};
      todo := todo - {n};
    }
    err := 0;
    assert done == m.mapInfo.Keys;
  }

  lemma CountedNone(s: State)
    ensures Counted(s, {}, Census({}, map[]))
  {
  }

  // ---------------------------------------------------------------- tried table

  // The tried slots before (bucket, pos) are placed, and `left` are the tried ids not in them.
  ghost predicate TriedScanned(net: Network, s: State, bucket: nat, pos: nat, left: set<int>) {
    && (forall slot | slot in s.vvTried && Before(slot, bucket, pos) :: TriedPlacedAt(net, s, slot))
    && (forall id | id in left :: IsTriedId(s, id))
    && (forall id | IsTriedId(s, id) ::
          id !in left <==> HeldBefore(s.vvTried, TriedSlot(net, s.nKey, s.mapInfo[id].Service()), id, bucket, pos))
  }

  ghost predicate HeldBefore(table: Table, slot: Slot, id: int, bucket: nat, pos: nat) {
    Holds(table, slot, id) && Before(slot, bucket, pos)
  }

  lemma TriedScanNext(net: Network, s: State, bucket: nat, pos: nat, left: set<int>)
    requires TriedScanned(net, s, bucket, pos, left)
    ensures
      var slot := Slot(bucket, pos);
      if slot !in s.vvTried then TriedScanned(net, s, bucket, pos + 1, left)
      else
        var id := s.vvTried[slot];
        && (TriedPlacedAt(net, s, slot) <==>
              id in left && slot == TriedSlot(net, s.nKey, s.mapInfo[id].Service()))
        && (TriedPlacedAt(net, s, slot) ==> TriedScanned(net, s, bucket, pos + 1, left - {id}))
  {
    hide TriedSlot;
    var slot := Slot(bucket, pos);
    forall other
      ensures Before(other, bucket, pos + 1) <==> Before(other, bucket, pos) || other == slot
    {
    }
    if slot in s.vvTried && TriedPlacedAt(net, s, slot) {
      var id := s.vvTried[slot];
      forall k | IsTriedId(s, k)
        ensures k !in left - {id} <==>
          HeldBefore(s.vvTried, TriedSlot(net, s.nKey, s.mapInfo[k].Service()), k, bucket, pos + 1)
      {
      }
    }
  }

  lemma TriedScanBucket(net: Network, s: State, bucket: nat, left: set<int>)
    requires TriedScanned(net, s, bucket, BUCKET_SIZE, left)
    requires forall slot | slot in s.vvTried :: slot.pos < BUCKET_SIZE
    ensures TriedScanned(net, s, bucket + 1, 0, left)
  {
    hide TriedSlot;
    forall slot | slot in s.vvTried
      ensures Before(slot, bucket, BUCKET_SIZE) <==> Before(slot, bucket + 1, 0)
    {
    }
    forall id | IsTriedId(s, id)
      ensures HeldBefore(s.vvTried, TriedSlot(net, s.nKey, s.mapInfo[id].Service()), id, bucket, BUCKET_SIZE)
         <==> HeldBefore(s.vvTried, TriedSlot(net, s.nKey, s.mapInfo[id].Service()), id, bucket + 1, 0)
    {
    }
  }

  // The second loop: err is 0 exactly if every occupied tried slot is in place; what is left
  // over are the tried ids that are in no slot.
  method CheckTriedTable(m: AddrMan, setTried: set<int>) returns (err: int, left: set<int>)
    requires m.Shape() && forall id :: id in setTried <==> IsTriedId(m.Abs(), id)
    ensures err == 0 <==> TriedPlaced(m.net, m.Abs())
    ensures err == 0 ==> TriedScanned(m.net, m.Abs(), TRIED_BUCKET_COUNT, 0, left)
  {
    hide TriedPlacedAt, TriedSlot, TriedScanned;
    ghost var s := m.Abs();
    left := setTried;
    assert TriedScanned(m.net, s, 0, 0, left) by {
      TriedScanStart(m.net, s, left);
    }
    TableEntries(m.vvTried);
    hide TableOf;
    for n := 0 to TRIED_BUCKET_COUNT
      invariant TriedScanned(m.net, s, n, 0, left)
    {
      for i := 0 to BUCKET_SIZE
        invariant TriedScanned(m.net, s, n, i, left)
      {
        TriedScanNext(m.net, s, n, i, left);
        TableAt(m.vvTried, Slot(n, i));
        if m.vvTried[n, i] != -1 {
          var id := m.vvTried[n, i];
          TriedScanKnown(m.net, s, n, i, left);
          if id !in left {
            return -11, left;
          }
          var bucket := GetTriedBucket(m.net, m.nKey, m.mapInfo[id].Service());
          TriedSlotIs(m.net, m.nKey, m.mapInfo[id].Service());
          if bucket != n {
            return -17, left;
          }
          if GetBucketPosition(m.net, m.nKey, m.mapInfo[id].Service(), false, n) != i {
            return -18, left;
          }
          left := left - {id};
        }
      }
      TriedScanBucket(m.net, s, n, left);
    }
    err := 0;
    TriedScanEnd(m.net, s, left);
  }

  lemma TriedScanStart(net: Network, s: State, left: set<int>)
    requires forall id :: id in left <==> IsTriedId(s, id)
    ensures TriedScanned(net, s, 0, 0, left)
  {
    hide TriedSlot;
  }

  lemma TriedScanKnown(net: Network, s: State, bucket: nat, pos: nat, left: set<int>)
    requires TriedScanned(net, s, bucket, pos, left)
    ensures forall id | id in left :: id in s.mapInfo
  {
    hide TriedSlot;
  }

  lemma TriedSlotIs(net: Network, key: nat, service: Service)
    ensures TriedSlot(net, key, service).bucket == GetTriedBucket(net, key, service)
    ensures TriedSlot(net, key, service).pos
         == GetBucketPosition(net, key, service, false, GetTriedBucket(net, key, service))
  {
  }

  lemma TriedScanEnd(net: Network, s: State, left: set<int>)
    requires TriedScanned(net, s, TRIED_BUCKET_COUNT, 0, left)
    requires forall slot | slot in s.vvTried :: slot.bucket < TRIED_BUCKET_COUNT
    ensures TriedPlaced(net, s)
  {
    hide TriedSlot;
    forall slot | slot in s.vvTried
      ensures TriedPlacedAt(net, s, slot)
    {
      assert Before(slot, TRIED_BUCKET_COUNT, 0);
    }
  }

  // ------------------------------------------------------------------ new table

  // References to `id` still expected after those before (bucket, pos).
  ghost function Expected(s: State, id: int, bucket: nat, pos: nat): int
    requires id in s.mapInfo
  {
    s.mapInfo[id].nRefCount - |Refs(Upto(s.vvNew, bucket, pos), id)|
  }

  ghost predicate NewScanned(net: Network, s: State, bucket: nat, pos: nat, left: map<int, int>) {
    && (forall slot | slot in s.vvNew && Before(slot, bucket, pos) :: NewPlacedAt(net, s, slot))
    && (forall id | id in left.Keys :: IsNewId(s, id))
    && (forall id | IsNewId(s, id) ::
          && Expected(s, id, bucket, pos) >= 0
          && (id in left.Keys <==> Expected(s, id, bucket, pos) > 0)
          && (id in left.Keys ==> left[id] == Expected(s, id, bucket, pos)))
  }

  ghost function Decremented(left: map<int, int>, id: int): map<int, int>
    requires id in left
  {
    if left[id] == 1 then left - {id} else left[id := left[id] - 1]
  }

  lemma ExpectedNext(s: State, id: int, bucket: nat, pos: nat)
    requires id in s.mapInfo
    ensures Expected(s, id, bucket, pos + 1)
         == Expected(s, id, bucket, pos) - if Holds(s.vvNew, Slot(bucket, pos), id) then 1 else 0
  {
    UptoNext(s.vvNew, bucket, pos);
    var slot := Slot(bucket, pos);
    if slot in s.vvNew {
      RefsAfterSet(Upto(s.vvNew, bucket, pos), slot, s.vvNew[slot], id);
    }
  }

  // A slot in excess of the count makes the final count wrong.
  lemma ExpectedFalls(s: State, id: int, bucket: nat, pos: nat)
    requires id in s.mapInfo
    ensures s.mapInfo[id].nRefCount - |Refs(s.vvNew, id)| <= Expected(s, id, bucket, pos)
  {
    forall slot | slot in Refs(Upto(s.vvNew, bucket, pos), id)
      ensures slot in Refs(s.vvNew, id)
    {
    }
    SubsetSize(Refs(Upto(s.vvNew, bucket, pos), id), Refs(s.vvNew, id));
  }

  lemma NewScanNext(net: Network, s: State, bucket: nat, pos: nat, left: map<int, int>)
    requires NewScanned(net, s, bucket, pos, left)
    ensures
      var slot := Slot(bucket, pos);
      if slot !in s.vvNew then NewScanned(net, s, bucket, pos + 1, left)
      else
        var id := s.vvNew[slot];
        && (id in left && NewPlacedAt(net, s, slot) ==> NewScanned(net, s, bucket, pos + 1, Decremented(left, id)))
        && (id !in left ==>
              || !NewPlacedAt(net, s, slot)
              || (IsNewId(s, id) && s.mapInfo[id].nRefCount < |Refs(s.vvNew, id)|))
  {
    hide NewSlotIn, Expected;
    var slot := Slot(bucket, pos);
    forall other
      ensures Before(other, bucket, pos + 1) <==> Before(other, bucket, pos) || other == slot
    {
    }
    forall id | IsNewId(s, id)
      ensures Expected(s, id, bucket, pos + 1)
           == Expected(s, id, bucket, pos) - if Holds(s.vvNew, slot, id) then 1 else 0
      ensures s.mapInfo[id].nRefCount - |Refs(s.vvNew, id)| <= Expected(s, id, bucket, pos + 1)
    {
      ExpectedNext(s, id, bucket, pos);
      ExpectedFalls(s, id, bucket, pos + 1);
    }
  }

  lemma NewScanBucket(net: Network, s: State, bucket: nat, left: map<int, int>)
    requires NewScanned(net, s, bucket, BUCKET_SIZE, left)
    requires forall slot | slot in s.vvNew :: slot.pos < BUCKET_SIZE
    ensures NewScanned(net, s, bucket + 1, 0, left)
  {
    hide NewSlotIn;
    forall slot | slot in s.vvNew
      ensures Before(slot, bucket, BUCKET_SIZE) <==> Before(slot, bucket + 1, 0)
    {
    }
    assert Upto(s.vvNew, bucket, BUCKET_SIZE) == Upto(s.vvNew, bucket + 1, 0);
  }

  lemma NewScanStart(net: Network, s: State, left: map<int, int>)
    requires forall id :: id in left.Keys <==> IsNewId(s, id)
    requires forall id | IsNewId(s, id) :: left[id] == s.mapInfo[id].nRefCount > 0
    ensures NewScanned(net, s, 0, 0, left)
  {
    hide NewSlotIn;
    assert Upto(s.vvNew, 0, 0) == map[];
    forall id | IsNewId(s, id)
      ensures Expected(s, id, 0, 0) == s.mapInfo[id].nRefCount
    {
      assert Refs(map[], id) == {};
    }
  }

  lemma NewScanEnd(net: Network, s: State, left: map<int, int>)
    requires NewScanned(net, s, NEW_BUCKET_COUNT, 0, left)
    requires forall slot | slot in s.vvNew :: slot.bucket < NEW_BUCKET_COUNT
    ensures NewPlaced(net, s)
    ensures left == map[] <==> forall id | IsNewId(s, id) :: s.mapInfo[id].nRefCount == |Refs(s.vvNew, id)|
  {
    hide NewSlotIn;
    forall slot | slot in s.vvNew
      ensures Before(slot, NEW_BUCKET_COUNT, 0)
    {
    }
    assert Upto(s.vvNew, NEW_BUCKET_COUNT, 0) == s.vvNew;
    if left != map[] {
      assert left.Keys != {};
      var id := Member(left.Keys);
      assert Expected(s, id, NEW_BUCKET_COUNT, 0) > 0;
    }
  }

  // The third loop.
  method CheckNewTable(m: AddrMan, mapNew: map<int, int>) returns (err: int, left: map<int, int>)
    requires m.Shape()
    requires forall id :: id in mapNew.Keys <==> IsNewId(m.Abs(), id)
    requires forall id | IsNewId(m.Abs(), id) :: mapNew[id] == m.mapInfo[id].nRefCount > 0
    ensures err != 0 ==>
      || !NewPlaced(m.net, m.Abs())
      || exists id :: IsNewId(m.Abs(), id) && m.mapInfo[id].nRefCount != |Refs(m.Abs().vvNew, id)|
    ensures err == 0 ==> NewScanned(m.net, m.Abs(), NEW_BUCKET_COUNT, 0, left)
  {
    hide NewSlotIn, NewScanned, NewPlacedAt;
    ghost var s := m.Abs();
    left := mapNew;
    NewScanStart(m.net, s, left);
    TableEntries(m.vvNew);
    hide TableOf, Decremented;
    for n := 0 to NEW_BUCKET_COUNT
      invariant NewScanned(m.net, s, n, 0, left)
    {
      for i := 0 to BUCKET_SIZE
        invariant NewScanned(m.net, s, n, i, left)
      {
        NewScanNext(m.net, s, n, i, left);
        TableAt(m.vvNew, Slot(n, i));
        if m.vvNew[n, i] != -1 {
          var id := m.vvNew[n, i];
          if id !in left {
            return -12, left;
          }
          NewScanKnown(m.net, s, n, i, left, id);
          if GetBucketPosition(m.net, m.nKey, m.mapInfo[id].Service(), true, n) != i {
            return -19, left;
          }
          DecrementedIs(left, id);
          left := left[id := left[id] - 1];
          if left[id] == 0 {
            left := left - {id};
          }
        }
      }
      NewScanBucket(m.net, s, n, left);
    }
    err := 0;
  }

  lemma DecrementedIs(left: map<int, int>, id: int)
    requires id in left
    ensures Decremented(left, id) ==
      var lower := left[id := left[id] - 1];
      if lower[id] == 0 then lower - {id} else lower
  {
  }

  lemma NewScanKnown(net: Network, s: State, bucket: nat, pos: nat, left: map<int, int>, id: int)
    requires NewScanned(net, s, bucket, pos, left) && id in left && Holds(s.vvNew, Slot(bucket, pos), id)
    requires bucket < NEW_BUCKET_COUNT
    ensures IsNewId(s, id)
    ensures NewPlacedAt(net, s, Slot(bucket, pos))
       <==> GetBucketPosition(net, s.nKey, s.mapInfo[id].Service(), true, bucket) == pos
  {
    assert id in left.Keys;
  }

  // Check_ returns 0 exactly if all it checks is the case.
  method Check(m: AddrMan) returns (err: int)
    requires m.Shape()
    ensures err == 0 <==> Consistent(m.net, m.Abs())
  {
    ghost var s := m.Abs();
    if |m.vRandom| != m.nTried + m.nNew {
      return -7;
    }
    var setTried, mapNew;
    err, setTried, mapNew := CheckEntries(m);
    if err != 0 {
      return;
    }
    CensusSizes(s, Census(setTried, mapNew));
    hide EntryCode, Counted, TriedSlot, TriedScanned, NewScanned, NewPlacedAt, TriedPlacedAt, TableOf;
    if |setTried| != m.nTried {
      return -9;
    }
    if |mapNew| != m.nNew {
      return -10;
    }
    err, setTried := CheckTriedTable(m, setTried);
    if err != 0 {
      return;
    }
    err, mapNew := CheckNewTable(m, mapNew);
    if err != 0 {
      return;
    }
    TableEntries(m.vvTried);
    TableEntries(m.vvNew);
    TriedLeft(m.net, s, setTried);
    NewScanEnd(m.net, s, mapNew);
    if |setTried| != 0 {
      return -13;
    }
    if |mapNew| != 0 {
      return -15;
    }
    if m.nKey == 0 {
      return -16;
    }
    err := 0;
  }

  lemma CensusSizes(s: State, census: Census)
    requires Counted(s, s.mapInfo.Keys, census) && forall id | id in s.mapInfo :: EntryCode(s, id) == 0
    ensures |census.setTried| == |TriedIds(s)| && |census.mapNew| == |NewIds(s)|
    ensures forall id :: id in census.setTried <==> IsTriedId(s, id)
    ensures forall id :: id in census.mapNew.Keys <==> IsNewId(s, id)
    ensures forall id | IsNewId(s, id) :: census.mapNew[id] == s.mapInfo[id].nRefCount > 0
  {
    forall id
      ensures id in census.setTried <==> IsTriedId(s, id)
      ensures id in census.mapNew.Keys <==> IsNewId(s, id)
    {
      assert id in s.mapInfo <==> id in s.mapInfo.Keys;
    }
    SameIds(census.setTried, TriedIds(s));
    SameIds(census.mapNew.Keys, NewIds(s));
  }

  lemma SameIds(a: set<int>, b: set<int>)
    requires forall id :: id in a <==> id in b
    ensures a == b
  {
    if a - b != {} {
      var id := Member(a - b);
      assert false;
    }
    if b - a != {} {
      var id := Member(b - a);
      assert false;
    }
  }

  lemma TriedLeft(net: Network, s: State, left: set<int>)
    requires TriedScanned(net, s, TRIED_BUCKET_COUNT, 0, left)
    requires forall slot | slot in s.vvTried :: slot.bucket < TRIED_BUCKET_COUNT
    ensures |left| == 0 <==>
      forall id | IsTriedId(s, id) :: Holds(s.vvTried, TriedSlot(net, s.nKey, s.mapInfo[id].Service()), id)
  {
    hide TriedSlot;
    if left != {} {
      var id := Member(left);
      assert IsTriedId(s, id);
    }
  }

  // After any run with a positive clock and a non-null key, Check_ finds nothing.
  lemma RunConsistent(net: Network, key: nat, ops: seq<Op>)
    requires key != 0 && forall i | 0 <= i < |ops| :: Timed(ops[i])
    ensures Inv(net, Fresh(key)) && Consistent(net, Run(net, Fresh(key), ops))
  {
    FreshInv(net, key);
    hide Inv, Timed, Consistent;
    assert AllSane(Fresh(key));
    RunKeeps(net, Fresh(key), ops);
    RunTimes(net, Fresh(key), ops);
    InvConsistent(net, Run(net, Fresh(key), ops));
  }
}
