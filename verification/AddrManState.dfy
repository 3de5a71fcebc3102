/**
 The state of the stochastic address manager (src/addrman.h) as a value, its structural
 invariant, and the steps its operations are made of (src/addrman.cpp).

 Four indexes describe one set of addresses: `mapInfo` by id, `mapAddr` by network
 address, `vRandom` as a shuffled list, and the two bucket tables. Hash functions, the
 grouping of addresses and their routability are parameters, so that everything below
 holds for all of them.
 */
module AddrManState {

  const TRIED_BUCKET_COUNT := 256
  const NEW_BUCKET_COUNT := 1024
  const BUCKET_SIZE := 64
  const TRIED_BUCKETS_PER_GROUP := 8
  const NEW_BUCKETS_PER_SOURCE_GROUP := 64
  const NEW_BUCKETS_PER_ADDRESS := 8
  const HORIZON_DAYS := 30
  const RETRIES := 3
  const MAX_FAILURES := 10
  const MIN_FAIL_DAYS := 7
  const REPLACEMENT_HOURS := 4
  const GETADDR_MAX_PCT := 23
  const GETADDR_MAX := 2500
  const SET_TRIED_COLLISION_SIZE := 10

  datatype NetAddr = NetAddr(ip: nat)
  datatype Service = Service(addr: NetAddr, port: nat)
  datatype Address = Address(service: Service, nServices: bv64, nTime: nat)

  // What is fed to the hash function at each place it is used.
  datatype Preimage =
    | TriedInner(key: nat, service: Service)
    | TriedOuter(key: nat, group: nat, slice: nat)
    | NewInner(key: nat, group: nat, sourceGroup: nat)
    | NewOuter(key: nat, sourceGroup: nat, slice: nat)
    | Position(key: nat, fNew: bool, bucket: nat, service: Service)

  datatype Network = Network(
    hash: Preimage -> nat,
    group: NetAddr -> nat,
    isRoutable: NetAddr -> bool,
    isValid: NetAddr -> bool)

  datatype Info = Info(
    address: Address,
    source: NetAddr,
    nLastTry: int,
    nLastCountAttempt: int,
    nLastSuccess: int,
    nAttempts: int,
    nRefCount: int,
    fInTried: bool,
    nRandomPos: int)
  {
    function Service(): Service { address.service }
    function Addr(): NetAddr { address.service.addr }

    predicate IsTerrible(now: int) {
      if nLastTry != 0 && nLastTry >= now - 60 then false
      else
        || address.nTime > now + 10 * 60
        || address.nTime == 0
        || now - address.nTime > HORIZON_DAYS * 24 * 60 * 60
        || (nLastSuccess == 0 && nAttempts >= RETRIES)
        || (now - nLastSuccess > MIN_FAIL_DAYS * 24 * 60 * 60 && nAttempts >= MAX_FAILURES)
    }
  }

  function NewInfo(address: Address, source: NetAddr): Info {
    Info(address, source, 0, 0, 0, 0, 0, false, -1)
  }

  datatype Slot = Slot(bucket: nat, pos: nat)

  // A bucket table; slots holding -1 are absent.
  type Table = map<Slot, int>

  datatype State = State(
    nKey: nat,
    nIdCount: int,
    mapInfo: map<int, Info>,
    mapAddr: map<NetAddr, int>,
    vRandom: seq<int>,
    nTried: int,
    vvTried: Table,
    nNew: int,
    vvNew: Table,
    nLastGood: int,
    triedCollisions: set<int>)

  // ----------------------------------------------------------------- placement

  function GetTriedBucket(net: Network, key: nat, service: Service): (b: nat)
    ensures b < TRIED_BUCKET_COUNT
  {
    var hash1 := net.hash(TriedInner(key, service));
    var hash2 := net.hash(TriedOuter(key, net.group(service.addr), hash1 % TRIED_BUCKETS_PER_GROUP));
    hash2 % TRIED_BUCKET_COUNT
  }

  function GetNewBucket(net: Network, key: nat, service: Service, source: NetAddr): (b: nat)
    ensures b < NEW_BUCKET_COUNT
  {
    var sourceGroup := net.group(source);
    var hash1 := net.hash(NewInner(key, net.group(service.addr), sourceGroup));
    var hash2 := net.hash(NewOuter(key, sourceGroup, hash1 % NEW_BUCKETS_PER_SOURCE_GROUP));
    hash2 % NEW_BUCKET_COUNT
  }

  function GetBucketPosition(net: Network, key: nat, service: Service, fNew: bool, bucket: nat): (p: nat)
    ensures p < BUCKET_SIZE
  {
    net.hash(Position(key, fNew, bucket, service)) % BUCKET_SIZE
  }

  function TriedSlot(net: Network, key: nat, service: Service): Slot {
    var bucket := GetTriedBucket(net, key, service);
    Slot(bucket, GetBucketPosition(net, key, service, false, bucket))
  }

  function NewSlotIn(net: Network, key: nat, service: Service, bucket: nat): Slot {
    Slot(bucket, GetBucketPosition(net, key, service, true, bucket))
  }

  function NewSlot(net: Network, key: nat, service: Service, source: NetAddr): Slot {
    NewSlotIn(net, key, service, GetNewBucket(net, key, service, source))
  }

  // ----------------------------------------------------------------- invariant

  // vRandom and mapInfo are inverse to each other.
  ghost predicate RandomLinked(s: State) {
    && (forall i | 0 <= i < |s.vRandom| ::
          s.vRandom[i] in s.mapInfo && s.mapInfo[s.vRandom[i]].nRandomPos == i)
    && (forall id | id in s.mapInfo ::
          0 <= s.mapInfo[id].nRandomPos < |s.vRandom| && s.vRandom[s.mapInfo[id].nRandomPos] == id)
  }

  // mapAddr and mapInfo are inverse to each other.
  ghost predicate AddrLinked(s: State) {
    && (forall id | id in s.mapInfo :: s.mapInfo[id].Addr() in s.mapAddr && s.mapAddr[s.mapInfo[id].Addr()] == id)
    && (forall a | a in s.mapAddr :: s.mapAddr[a] in s.mapInfo && s.mapInfo[s.mapAddr[a]].Addr() == a)
  }

  ghost predicate IdsUsed(s: State) {
    0 <= s.nIdCount && forall id | id in s.mapInfo :: 0 <= id < s.nIdCount
  }

  // Every occupied tried slot is the one slot its address hashes to.
  ghost predicate TriedPlaced(net: Network, s: State) {
    forall slot | slot in s.vvTried :: TriedPlacedAt(net, s, slot)
  }

  ghost predicate TriedPlacedAt(net: Network, s: State, slot: Slot)
    requires slot in s.vvTried
  {
    var id := s.vvTried[slot];
    id in s.mapInfo && s.mapInfo[id].fInTried && slot == TriedSlot(net, s.nKey, s.mapInfo[id].Service())
  }

  // Every occupied new slot holds an untried id, at the position it hashes to in that bucket.
  ghost predicate NewPlaced(net: Network, s: State) {
    forall slot | slot in s.vvNew :: NewPlacedAt(net, s, slot)
  }

  ghost predicate NewPlacedAt(net: Network, s: State, slot: Slot)
    requires slot in s.vvNew
  {
    var id := s.vvNew[slot];
    && id in s.mapInfo
    && !s.mapInfo[id].fInTried
    && slot.bucket < NEW_BUCKET_COUNT
    && slot == NewSlotIn(net, s.nKey, s.mapInfo[id].Service(), slot.bucket)
  }

  ghost function Refs(table: Table, id: int): set<Slot> {
    set slot | slot in table && table[slot] == id
  }

  // Reference counts are exact.
  ghost predicate RefsCounted(s: State) {
    forall id | id in s.mapInfo ::
      s.mapInfo[id].nRefCount == |Refs(s.vvNew, id)| && s.mapInfo[id].nRefCount <= NEW_BUCKETS_PER_ADDRESS
  }

  // What holds between any two steps of an operation.
  ghost predicate Coherent(net: Network, s: State) {
    && RandomLinked(s)
    && AddrLinked(s)
    && IdsUsed(s)
    && TriedPlaced(net, s)
    && NewPlaced(net, s)
    && RefsCounted(s)
  }

  // An id is either in its tried slot or referenced from the new table.
  ghost predicate Settled(net: Network, s: State, id: int)
    requires id in s.mapInfo
  {
    if s.mapInfo[id].fInTried
    then Holds(s.vvTried, TriedSlot(net, s.nKey, s.mapInfo[id].Service()), id)
    else s.mapInfo[id].nRefCount >= 1
  }

  ghost predicate Holds(table: Table, slot: Slot, id: int) {
    slot in table && table[slot] == id
  }

  predicate IsTriedId(s: State, id: int) { id in s.mapInfo && s.mapInfo[id].fInTried }
  predicate IsNewId(s: State, id: int) { id in s.mapInfo && !s.mapInfo[id].fInTried }

  ghost function TriedIds(s: State): set<int> {
    set id | id in s.mapInfo && s.mapInfo[id].fInTried
  }

  ghost function NewIds(s: State): set<int> {
    set id | id in s.mapInfo && !s.mapInfo[id].fInTried
  }

  // A recorded collision is with a tried slot that is still occupied.
  ghost predicate CollisionsOccupied(net: Network, s: State) {
    forall id | id in s.triedCollisions ::
      && 0 <= id < s.nIdCount
      && (id in s.mapInfo ==> TriedSlot(net, s.nKey, s.mapInfo[id].Service()) in s.vvTried)
  }

  ghost predicate AllSettled(net: Network, s: State, pending: set<int>) {
    forall id | id in s.mapInfo && id !in pending :: Settled(net, s, id)
  }

  // The invariant in the middle of an operation: the ids in `pending` may be in neither
  // table, and `missing` of the untried ids are not counted in nNew.
  ghost predicate Between(net: Network, s: State, pending: set<int>, missing: int) {
    && Coherent(net, s)
    && AllSettled(net, s, pending)
    && s.nTried == |TriedIds(s)|
    && s.nNew == |NewIds(s)| - missing
  }

  // The structural conditions of Check_, and what they rest on.
  ghost predicate Inv(net: Network, s: State) {
    && Between(net, s, {}, 0)
    && CollisionsOccupied(net, s)
    && |s.triedCollisions| <= SET_TRIED_COLLISION_SIZE
  }

  lemma KnownAddr(net: Network, s: State, addr: NetAddr)
    requires Inv(net, s) && addr in s.mapAddr
    ensures s.mapAddr[addr] in s.mapInfo && s.mapAddr[addr] >= 0 && s.mapInfo[s.mapAddr[addr]].Addr() == addr
  {
  }

  lemma CountInRange(net: Network, s: State, id: int)
    requires Inv(net, s) && id in s.mapInfo
    ensures 0 <= s.mapInfo[id].nRefCount <= NEW_BUCKETS_PER_ADDRESS
  {
  }

  // --------------------------------------------------------------------- steps

  function WithInfo(s: State, id: int, info: Info): State {
    s.(mapInfo := s.mapInfo[id := info])
  }

  function SwapRandom(s: State, pos1: nat, pos2: nat): (r: State)
    requires RandomLinked(s)
    requires pos1 == pos2 || (pos1 < |s.vRandom| && pos2 < |s.vRandom|)
    ensures RandomLinked(r)
  {
    if pos1 == pos2 then s
    else
      var id1 := s.vRandom[pos1];
      var id2 := s.vRandom[pos2];
      s.(mapInfo := s.mapInfo[id1 := s.mapInfo[id1].(nRandomPos := pos2)]
                             [id2 := s.mapInfo[id2].(nRandomPos := pos1)],
         vRandom := s.vRandom[pos1 := id2][pos2 := id1])
  }

  // Delete(nId); the preconditions are the asserts of the source.
  function Delete(s: State, id: int): (r: State)
    requires RandomLinked(s)
    requires id in s.mapInfo && !s.mapInfo[id].fInTried && s.mapInfo[id].nRefCount == 0
    ensures RandomLinked(r)
  {
    var swapped := SwapRandom(s, s.mapInfo[id].nRandomPos, |s.vRandom| - 1);
    assert forall k | k in swapped.mapInfo && k != id :: swapped.mapInfo[k].nRandomPos < |s.vRandom| - 1;
    swapped.(vRandom := swapped.vRandom[..|s.vRandom| - 1],
             mapAddr := s.mapAddr - {s.mapInfo[id].Addr()},
             mapInfo := swapped.mapInfo - {id},
             nNew := s.nNew - 1)
  }

  // Empties a new slot and drops the id that was in it once nothing refers to it.
  function ClearNew(s: State, slot: Slot): (r: State)
    requires RandomLinked(s)
    requires slot in s.vvNew ==> CanUnref(s, s.vvNew[slot])
    ensures RandomLinked(r)
  {
    if slot !in s.vvNew then s
    else
      var id := s.vvNew[slot];
      var info := s.mapInfo[id].(nRefCount := s.mapInfo[id].nRefCount - 1);
      var cleared := WithInfo(s, id, info).(vvNew := s.vvNew - {slot});
      if info.nRefCount == 0 then Delete(cleared, id) else cleared
  }

  // The assert in ClearNew.
  predicate CanUnref(s: State, id: int) {
    id in s.mapInfo && !s.mapInfo[id].fInTried && s.mapInfo[id].nRefCount > 0
  }

  function Create(s: State, address: Address, source: NetAddr): State {
    var info := NewInfo(address, source).(nRandomPos := |s.vRandom|);
    s.(nIdCount := s.nIdCount + 1,
       mapInfo := s.mapInfo[s.nIdCount := info],
       mapAddr := s.mapAddr[address.service.addr := s.nIdCount],
       vRandom := s.vRandom + [s.nIdCount])
  }

  // Puts one more reference to an untried id into an empty new slot.
  function AddRef(s: State, id: int, slot: Slot): State
    requires id in s.mapInfo
  {
    WithInfo(s, id, s.mapInfo[id].(nRefCount := s.mapInfo[id].nRefCount + 1)).(vvNew := s.vvNew[slot := id])
  }

  // The slots the first loop of MakeTried, and the search loop of Good_, find an id in:
  // one position is looked at in each bucket.
  ghost function ScanNew(net: Network, s: State, id: int, buckets: nat): set<Slot>
    requires id in s.mapInfo
  {
    set b | 0 <= b < buckets && Holds(s.vvNew, NewSlotIn(net, s.nKey, s.mapInfo[id].Service(), b), id)
      :: NewSlotIn(net, s.nKey, s.mapInfo[id].Service(), b)
  }

  // MakeTried, first part: out of all new buckets.
  ghost function LeaveNew(net: Network, s: State, id: int): State
    requires id in s.mapInfo
  {
    var found := ScanNew(net, s, id, NEW_BUCKET_COUNT);
    WithInfo(s, id, s.mapInfo[id].(nRefCount := s.mapInfo[id].nRefCount - |found|)).(
      vvNew := s.vvNew - found, nNew := s.nNew - 1)
  }

  // MakeTried, second part: the occupant of a tried slot leaves it ...
  function TakeOut(s: State, slot: Slot): State
    requires slot in s.vvTried && s.vvTried[slot] in s.mapInfo
  {
    var id := s.vvTried[slot];
    WithInfo(s, id, s.mapInfo[id].(fInTried := false)).(vvTried := s.vvTried - {slot}, nTried := s.nTried - 1)
  }

  // ... and enters the new table again, in a slot that has just been cleared.
  function Reenter(s: State, id: int, slot: Slot): State
    requires id in s.mapInfo
  {
    WithInfo(s, id, s.mapInfo[id].(nRefCount := 1)).(vvNew := s.vvNew[slot := id], nNew := s.nNew + 1)
  }

  // MakeTried, last part: into the empty tried slot.
  function EnterTried(s: State, id: int, slot: Slot): State
    requires id in s.mapInfo
  {
    WithInfo(s, id, s.mapInfo[id].(fInTried := true)).(
      vvTried := s.vvTried[slot := id], nTried := s.nTried + 1)
  }

  // ------------------------------------------------------- what the steps keep

  // Everything about an entry except where it sits in vRandom.
  function Stats(info: Info): Info {
    info.(nRandomPos := 0)
  }

  ghost predicate StatsKept(s: State, r: State, ids: set<int>) {
    forall id | id in ids :: id in s.mapInfo && id in r.mapInfo && Stats(r.mapInfo[id]) == Stats(s.mapInfo[id])
  }

  // Everything about an entry that does not say where it is filed.
  function Record(info: Info): Info {
    info.(nRefCount := 0, fInTried := false, nRandomPos := 0)
  }

  // Whatever is still there was there before, with the same record.
  ghost predicate RecordsKept(s: State, r: State) {
    forall id | id in r.mapInfo :: id in s.mapInfo && Record(r.mapInfo[id]) == Record(s.mapInfo[id])
  }

  lemma SwapRandomShape(s: State, pos1: nat, pos2: nat)
    requires RandomLinked(s)
    requires pos1 < |s.vRandom| && pos2 < |s.vRandom|
    ensures
      var r := SwapRandom(s, pos1, pos2);
      && r == s.(mapInfo := r.mapInfo, vRandom := r.vRandom)
      && r.mapInfo.Keys == s.mapInfo.Keys
      && StatsKept(s, r, s.mapInfo.Keys)
      && |r.vRandom| == |s.vRandom|
  {
  }

  lemma DeleteShape(s: State, id: int)
    requires RandomLinked(s)
    requires id in s.mapInfo && !s.mapInfo[id].fInTried && s.mapInfo[id].nRefCount == 0
    ensures
      var r := Delete(s, id);
      && r == s.(mapInfo := r.mapInfo, mapAddr := s.mapAddr - {s.mapInfo[id].Addr()}, vRandom := r.vRandom,
                 nNew := s.nNew - 1)
      && r.mapInfo.Keys == s.mapInfo.Keys - {id}
      && StatsKept(s, r, r.mapInfo.Keys)
  {
    SwapRandomShape(s, s.mapInfo[id].nRandomPos, |s.vRandom| - 1);
  }

  // Dropping an id nothing refers to keeps the rest coherent.
  lemma RemovalKeeps(net: Network, s: State, id: int, r: State)
    requires Coherent(net, s) && RandomLinked(r)
    requires id in s.mapInfo && !s.mapInfo[id].fInTried && s.mapInfo[id].nRefCount == 0
    requires r == s.(mapInfo := r.mapInfo, mapAddr := s.mapAddr - {s.mapInfo[id].Addr()}, vRandom := r.vRandom,
                     nNew := r.nNew)
    requires r.mapInfo.Keys == s.mapInfo.Keys - {id}
    requires StatsKept(s, r, r.mapInfo.Keys)
    ensures Coherent(net, r)
  {
    forall k | k in r.mapInfo
      ensures r.mapInfo[k] == s.mapInfo[k].(nRandomPos := r.mapInfo[k].nRandomPos)
    {
      assert Stats(r.mapInfo[k]) == Stats(s.mapInfo[k]);
    }
    assert AddrLinked(r) by {
      forall a | a in r.mapAddr
        ensures r.mapAddr[a] in r.mapInfo && r.mapInfo[r.mapAddr[a]].Addr() == a
      {
        assert s.mapAddr[a] in s.mapInfo && s.mapInfo[s.mapAddr[a]].Addr() == a;
      }
    }
    forall slot | slot in r.vvTried
      ensures TriedPlacedAt(net, r, slot)
    {
      assert TriedPlacedAt(net, s, slot);
    }
    forall slot | slot in r.vvNew
      ensures NewPlacedAt(net, r, slot)
    {
      assert NewPlacedAt(net, s, slot);
      assert s.vvNew[slot] == id ==> slot in Refs(s.vvNew, id);
    }
    assert RefsCounted(r);
  }

  lemma DeleteKeeps(net: Network, s: State, id: int)
    requires Coherent(net, s)
    requires id in s.mapInfo && !s.mapInfo[id].fInTried && s.mapInfo[id].nRefCount == 0
    ensures Coherent(net, Delete(s, id))
  {
    DeleteShape(s, id);
    RemovalKeeps(net, s, id, Delete(s, id));
  }

  lemma CanClear(net: Network, s: State, slot: Slot)
    requires Coherent(net, s) && slot in s.vvNew
    ensures CanUnref(s, s.vvNew[slot])
  {
    assert slot in Refs(s.vvNew, s.vvNew[slot]);
  }

  lemma RefsAfterClear(table: Table, slot: Slot, id: int)
    requires slot in table
    ensures Refs(table - {slot}, id) == Refs(table, id) - {slot}
    ensures |Refs(table - {slot}, id)| == |Refs(table, id)| - if table[slot] == id then 1 else 0
  {
    assert Refs(table - {slot}, id) == Refs(table, id) - {slot};
  }

  lemma RefsAfterSet(table: Table, slot: Slot, owner: int, id: int)
    requires slot !in table
    ensures Refs(table[slot := owner], id) == Refs(table, id) + if owner == id then {slot} else {}
    ensures |Refs(table[slot := owner], id)| == |Refs(table, id)| + if owner == id then 1 else 0
  {
    assert Refs(table[slot := owner], id) == Refs(table, id) + if owner == id then {slot} else {};
  }

  // Changing one entry in place, but neither its address nor its vRandom position.
  lemma LinksKept(s: State, r: State, id: int, info: Info)
    requires RandomLinked(s) && AddrLinked(s) && IdsUsed(s)
    requires id in s.mapInfo && r.mapInfo == s.mapInfo[id := info]
    requires info.nRandomPos == s.mapInfo[id].nRandomPos && info.Addr() == s.mapInfo[id].Addr()
    requires r.vRandom == s.vRandom && r.mapAddr == s.mapAddr && r.nIdCount == s.nIdCount
    ensures RandomLinked(r) && AddrLinked(r) && IdsUsed(r)
  {
  }

  // Changing neither the service nor the table an id belongs to, and only taking references away.
  lemma PlacementKept(net: Network, s: State, r: State, id: int, info: Info)
    requires TriedPlaced(net, s) && NewPlaced(net, s)
    requires id in s.mapInfo && r.mapInfo == s.mapInfo[id := info] && r.nKey == s.nKey
    requires info.Service() == s.mapInfo[id].Service() && info.fInTried == s.mapInfo[id].fInTried
    requires r.vvTried == s.vvTried
    requires forall slot | slot in r.vvNew :: slot in s.vvNew && r.vvNew[slot] == s.vvNew[slot]
    ensures TriedPlaced(net, r) && NewPlaced(net, r)
  {
    forall slot | slot in r.vvTried
      ensures TriedPlacedAt(net, r, slot)
    {
      assert TriedPlacedAt(net, s, slot);
    }
    forall slot | slot in r.vvNew
      ensures NewPlacedAt(net, r, slot)
    {
      assert NewPlacedAt(net, s, slot);
    }
  }

  // Emptying a slot and lowering the count of its owner.
  lemma UnrefKeeps(net: Network, s: State, slot: Slot)
    requires Coherent(net, s) && slot in s.vvNew && CanUnref(s, s.vvNew[slot])
    ensures
      var id := s.vvNew[slot];
      var info := s.mapInfo[id].(nRefCount := s.mapInfo[id].nRefCount - 1);
      Coherent(net, WithInfo(s, id, info).(vvNew := s.vvNew - {slot}))
  {
    var id := s.vvNew[slot];
    var info := s.mapInfo[id].(nRefCount := s.mapInfo[id].nRefCount - 1);
    var r := WithInfo(s, id, info).(vvNew := s.vvNew - {slot});
    LinksKept(s, r, id, info);
    PlacementKept(net, s, r, id, info);
    forall k | k in r.mapInfo
      ensures r.mapInfo[k].nRefCount == |Refs(r.vvNew, k)| <= NEW_BUCKETS_PER_ADDRESS
    {
      RefsAfterClear(s.vvNew, slot, k);
    }
  }

  // ClearNew touches one id only, and deletes it exactly when its last reference goes.
  lemma ClearNewShape(s: State, slot: Slot)
    requires RandomLinked(s) && slot in s.vvNew && CanUnref(s, s.vvNew[slot])
    ensures
      var r := ClearNew(s, slot);
      var id := s.vvNew[slot];
      && r == s.(mapInfo := r.mapInfo, mapAddr := r.mapAddr, vRandom := r.vRandom, nNew := r.nNew,
                 vvNew := s.vvNew - {slot})
      && StatsKept(s, r, s.mapInfo.Keys - {id})
      && (s.mapInfo[id].nRefCount == 1 ==> r.mapInfo.Keys == s.mapInfo.Keys - {id} && r.nNew == s.nNew - 1)
      && (s.mapInfo[id].nRefCount > 1 ==>
            && r.mapInfo.Keys == s.mapInfo.Keys && r.nNew == s.nNew
            && Stats(r.mapInfo[id]) == Stats(s.mapInfo[id]).(nRefCount := s.mapInfo[id].nRefCount - 1))
  {
    var id := s.vvNew[slot];
    var info := s.mapInfo[id].(nRefCount := s.mapInfo[id].nRefCount - 1);
    var cleared := WithInfo(s, id, info).(vvNew := s.vvNew - {slot});
    if info.nRefCount == 0 {
      DeleteShape(cleared, id);
      forall k | k in s.mapInfo.Keys - {id}
        ensures Stats(Delete(cleared, id).mapInfo[k]) == Stats(s.mapInfo[k])
      {
        assert cleared.mapInfo[k] == s.mapInfo[k];
      }
    }
  }

  lemma ClearNewKeeps(net: Network, s: State, slot: Slot)
    requires Coherent(net, s)
    requires slot in s.vvNew ==> CanUnref(s, s.vvNew[slot])
    ensures Coherent(net, ClearNew(s, slot))
    ensures slot !in ClearNew(s, slot).vvNew
  {
    if slot in s.vvNew {
      UnrefKeeps(net, s, slot);
      var id := s.vvNew[slot];
      var info := s.mapInfo[id].(nRefCount := s.mapInfo[id].nRefCount - 1);
      var cleared := WithInfo(s, id, info).(vvNew := s.vvNew - {slot});
      if info.nRefCount == 0 {
        DeleteShape(cleared, id);
        DeleteKeeps(net, cleared, id);
      }
    }
  }
}
