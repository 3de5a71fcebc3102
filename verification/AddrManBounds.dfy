/**
 Two consequences of the address manager's invariant over runs: the time conditions of
 Check_ (src/addrman.cpp), and the bound on how much of the tried table one group of
 addresses can take (design notes of src/addrman.h).
 */
module AddrManBounds {
  import Arith
  import opened AddrManState
  import opened AddrManSteps
  import opened AddrManOps
  import opened AddrManAdd
  import opened AddrManRun

  // ----------------------------------------------------------------------- times

  // Conditions -1, -6 and -8 of Check_.
  predicate SaneTimes(info: Info) {
    info.nLastTry >= 0 && info.nLastSuccess >= 0 && (info.fInTried ==> info.nLastSuccess != 0)
  }

  ghost predicate AllSane(s: State) {
    forall id | id in s.mapInfo :: SaneTimes(s.mapInfo[id])
  }

  // The clock never shows zero or less.
  predicate Timed(op: Op) {
    match op
    case OpGood(_, _, time) => time > 0
    case OpAttempt(_, _, time) => time >= 0
    case OpResolve(now) => now > 0
    case _ => true
  }

  // Records carry the times over; only `promoted` may be tried now and not before.
  lemma TimesCarried(net: Network, s: State, r: State, promoted: int)
    requires Coherent(net, s) && Between(net, r, {}, 0) && RecordsKept(s, r) && AllSane(s)
    requires forall slot | slot in r.vvTried ::
      r.vvTried[slot] == promoted || Holds(s.vvTried, slot, r.vvTried[slot])
    requires promoted in s.mapInfo ==> s.mapInfo[promoted].nLastSuccess != 0
    ensures AllSane(r)
  {
    hide RandomLinked, AddrLinked, RefsCounted;
    forall id | id in r.mapInfo
      ensures SaneTimes(r.mapInfo[id])
    {
      assert Record(r.mapInfo[id]) == Record(s.mapInfo[id]);
      assert Settled(net, r, id);
      if r.mapInfo[id].fInTried && id != promoted {
        var slot := TriedSlot(net, r.nKey, r.mapInfo[id].Service());
        assert Holds(s.vvTried, slot, id);
        assert TriedPlacedAt(net, s, slot);
      }
    }
  }

  lemma GoodTimes(net: Network, s: State, service: Service, testBeforeEvict: bool, time: int)
    requires Inv(net, s) && AllSane(s) && time > 0
    ensures AllSane(Good(net, s, service, testBeforeEvict, time))
  {
    match FindExact(s, service)
    case None =>
    case Some(id) =>
      hide Between, CollisionsOccupied;
      var touched := GoodTouched(s, id, time);
      TouchKeeps(net, s, touched, id, Succeeded(s.mapInfo[id], time));
      if !s.mapInfo[id].fInTried {
        PromoteTimes(net, touched, id, testBeforeEvict);
      }
  }

  lemma PromoteTimes(net: Network, s: State, id: int, testBeforeEvict: bool)
    requires Inv(net, s) && AllSane(s) && id in s.mapInfo && !s.mapInfo[id].fInTried
    requires s.mapInfo[id].nLastSuccess != 0
    ensures AllSane(Promote(net, s, id, testBeforeEvict))
  {
    hide Between, CollisionsOccupied, RecordsKept, AllSane;
    if testBeforeEvict && TriedSlot(net, s.nKey, s.mapInfo[id].Service()) in s.vvTried {
      SaneFields(s, Promote(net, s, id, testBeforeEvict));
    } else {
      MakeTriedKeeps(net, s, id);
      MakeTriedEffect(net, s, id);
      MakeTriedForgets(net, s, id);
      CoherentOf(net, s);
      TimesCarried(net, s, MakeTried(net, s, id), id);
    }
  }

  lemma SaneFields(s: State, r: State)
    requires AllSane(s) && r.mapInfo == s.mapInfo
    ensures AllSane(r)
  {
  }

  lemma CoherentOf(net: Network, s: State)
    requires Inv(net, s)
    ensures Coherent(net, s)
  {
  }

  lemma InsertTimes(net: Network, s: State, id: int, slot: Slot, now: int)
    requires Insertable(s, id, slot) && Coherent(net, s) && AllSane(s)
    requires Between(net, Insert(s, id, slot, now), {}, 0)
    ensures AllSane(Insert(s, id, slot, now))
  {
    hide Coherent, Between, RecordsKept, AllSane, Insert;
    InsertEffect(net, s, id, slot, now);
    NoNegativeIds(net, s);
    TimesCarried(net, s, Insert(s, id, slot, now), -1);
  }

  lemma NoNegativeIds(net: Network, s: State)
    requires Coherent(net, s)
    ensures -1 !in s.mapInfo
  {
  }

  lemma AddTimes(net: Network, s: State, address: Address, source: NetAddr, nTimePenalty: int, now: int, dice: nat)
    requires Inv(net, s) && AllSane(s)
    ensures AllSane(Add(net, s, address, source, nTimePenalty, now, dice))
  {
    hide Inv, Coherent, Between, RecordsKept;
    var penalty := Penalty(address, source, nTimePenalty);
    var addr := address.service.addr;
    if !net.isRoutable(addr) {
    } else if addr in s.mapAddr {
      KnownAddr(net, s, addr);
      AddKnownTimes(net, s, s.mapAddr[addr], address, source, penalty, now, dice);
    } else {
      var created := Created(s, address, source, penalty);
      UnknownInsertable(net, s, address, source, penalty, now);
      CreatedCoherent(net, s, address, source, penalty);
      InsertTimes(net, created, s.nIdCount, NewSlot(net, s.nKey, address.service, source), now);
    }
  }

  lemma CreatedCoherent(net: Network, s: State, address: Address, source: NetAddr, penalty: int)
    requires Inv(net, s) && address.service.addr !in s.mapAddr
    ensures Coherent(net, Created(s, address, source, penalty))
  {
    hide Coherent;
    CreateBetween(net, s, address.(nTime := Uint32(Arith.Max(0, address.nTime - penalty))), source);
  }

  lemma AddKnownTimes(net: Network, s: State, id: int, address: Address, source: NetAddr, penalty: int,
                      now: int, dice: nat)
    requires Inv(net, s) && AllSane(s) && id in s.mapInfo
    ensures AllSane(AddKnown(net, s, id, address, source, penalty, now, dice))
  {
    hide Coherent, Between, RecordsKept;
    var info := Refreshed(s.mapInfo[id], address, penalty, now);
    var refreshed := WithInfo(s, id, info);
    if !(Saturated(info, address) || Unlucky(info.nRefCount, dice)) {
      KnownInsertable(net, s, id, info, source, now);
      CoherentOf(net, refreshed);
      InsertTimes(net, refreshed, id, NewSlot(net, s.nKey, info.Service(), source), now);
    }
  }

  lemma {:induction false} ResolveTimes(net: Network, s: State, todo: set<int>, now: int)
    requires Inv(net, s) && AllSane(s) && now > 0
    ensures AllSane(ResolveFrom(net, s, todo, now))
    decreases |todo|
  {
    hide Inv, AllSane, Good;
    if todo != {} {
      LeastExists(todo);
      var id :| Least(id, todo);
      ResolveOneKeeps(net, s, id, now);
      ResolveOneTimes(net, s, id, now);
      ResolveTimes(net, ResolveOne(net, s, id, now), todo - {id}, now);
    }
  }

  lemma ResolveOneTimes(net: Network, s: State, id: int, now: int)
    requires Inv(net, s) && AllSane(s) && now > 0
    ensures AllSane(ResolveOne(net, s, id, now))
  {
    hide Inv, Good, AllSane;
    SaneFields(s, Dropped(s, id));
    if id in s.mapInfo {
      var r := Good(net, s, s.mapInfo[id].Service(), false, now);
      GoodTimes(net, s, s.mapInfo[id].Service(), false, now);
      SaneFields(r, Dropped(r, id));
    }
  }

  lemma ReorderedTimes(net: Network, s: State, r: State)
    requires Reordered(net, s, r) && AllSane(s)
    ensures AllSane(r)
  {
    hide Inv, Follows;
    forall id | id in r.mapInfo
      ensures SaneTimes(r.mapInfo[id])
    {
      assert id in r.mapInfo.Keys;
      assert Stats(r.mapInfo[id]) == Stats(s.mapInfo[id]);
    }
  }

  lemma ApplyTimes(net: Network, s: State, op: Op)
    requires Inv(net, s) && AllSane(s) && Timed(op)
    ensures AllSane(Apply(net, s, op))
  {
    hide Inv, Good, Add, GetAddr, ResolveFrom, Reordered;
    match op
    case OpAdd(address, source, penalty, now, dice) => AddTimes(net, s, address, source, penalty, now, dice);
    case OpGood(service, test, time) => GoodTimes(net, s, service, test, time);
    case OpAttempt(service, count, time) =>
    case OpConnected(service, time) =>
    case OpSetServices(service, nServices) =>
    case OpGetAddr(now, rolls) =>
      GetAddrSamples(net, s, now, rolls);
      ReorderedTimes(net, s, GetAddr(s, now, rolls).state);
    case OpResolve(now) => ResolveTimes(net, s, s.triedCollisions, now);
    case OpSelect(pick) =>
  }

  // With a clock that shows positive times, the time conditions of Check_ hold throughout.
  lemma {:induction false} RunTimes(net: Network, s: State, ops: seq<Op>)
    requires Inv(net, s) && AllSane(s)
    requires forall i | 0 <= i < |ops| :: Timed(ops[i])
    ensures AllSane(Run(net, s, ops))
    decreases |ops|
  {
    hide Inv, AllSane, Apply, Timed;
    if ops != [] {
      ApplyKeeps(net, s, ops[0]);
      ApplyTimes(net, s, ops[0]);
      RunTimes(net, Apply(net, s, ops[0]), ops[1..]);
    }
  }

  // ---------------------------------------------------------------------- groups

  // The tried slots taken by addresses of one group.
  ghost function GroupSlots(net: Network, s: State, group: nat): set<Slot> {
    set slot | slot in s.vvTried && s.vvTried[slot] in s.mapInfo
               && net.group(s.mapInfo[s.vvTried[slot]].Addr()) == group
  }

  // The buckets that slices 0 .. n-1 of a group hash to.
  ghost function GroupBuckets(net: Network, key: nat, group: nat, n: nat): (buckets: set<nat>)
    ensures |buckets| <= n
    ensures forall i | 0 <= i < n :: net.hash(TriedOuter(key, group, i)) % TRIED_BUCKET_COUNT in buckets
  {
    if n == 0 then {}
    else GroupBuckets(net, key, group, n - 1) + {net.hash(TriedOuter(key, group, n - 1)) % TRIED_BUCKET_COUNT}
  }

  lemma {:induction false} SlotsInBuckets(slots: set<Slot>, buckets: set<nat>)
    requires forall slot | slot in slots :: slot.bucket in buckets && slot.pos < BUCKET_SIZE
    ensures |slots| <= |buckets| * BUCKET_SIZE
    decreases |buckets|
  {
    if buckets == {} {
      assert slots == {};
    } else {
      assert |buckets| > 0;
      var b :| b in buckets;
      var here := set slot | slot in slots && slot.bucket == b;
      var rest := slots - here;
      SlotsInBuckets(rest, buckets - {b});
      OneBucket(here, b, BUCKET_SIZE);
      assert slots == here + rest;
    }
  }

  lemma {:induction false} OneBucket(slots: set<Slot>, bucket: nat, size: nat)
    requires forall slot | slot in slots :: slot.bucket == bucket && slot.pos < size
    ensures |slots| <= size
    decreases size
  {
    if size == 0 {
      assert slots == {};
    } else {
      var last := Slot(bucket, size - 1);
      OneBucket(slots - {last}, bucket, size - 1);
    }
  }

  // However many addresses it has, one group never takes more than 8 buckets of the tried table.
  lemma GroupIsConfined(net: Network, s: State, group: nat)
    requires Inv(net, s)
    ensures
      var buckets := GroupBuckets(net, s.nKey, group, TRIED_BUCKETS_PER_GROUP);
      |buckets| <= TRIED_BUCKETS_PER_GROUP && forall slot | slot in GroupSlots(net, s, group) :: slot.bucket in buckets
    ensures |GroupSlots(net, s, group)| <= TRIED_BUCKETS_PER_GROUP * BUCKET_SIZE
  {
    var buckets := GroupBuckets(net, s.nKey, group, TRIED_BUCKETS_PER_GROUP);
    forall slot | slot in GroupSlots(net, s, group)
      ensures slot.bucket in buckets && slot.pos < BUCKET_SIZE
    {
      assert TriedPlacedAt(net, s, slot);
    }
    SlotsInBuckets(GroupSlots(net, s, group), buckets);
  }

  // The same without naming constants: 8 of the buckets, 512 slots, and never more than 256 buckets in all.
  lemma GroupIsSmall(net: Network, s: State, group: nat) returns (buckets: set<nat>)
    requires Inv(net, s)
    ensures |buckets| <= 8 && forall b | b in buckets :: b < 256
    ensures forall slot | slot in GroupSlots(net, s, group) :: slot.bucket in buckets && slot.pos < 64
    ensures |GroupSlots(net, s, group)| <= 512
  {
    GroupIsConfined(net, s, group);
    buckets := GroupBuckets(net, s.nKey, group, 8);
    BucketsBelow(net, s.nKey, group, 8);
    forall slot | slot in GroupSlots(net, s, group)
      ensures slot.pos < 64
    {
      assert TriedPlacedAt(net, s, slot);
    }
  }

  lemma {:induction false} BucketsBelow(net: Network, key: nat, group: nat, n: nat)
    ensures forall b | b in GroupBuckets(net, key, group, n) :: b < 256
  {
    if n > 0 {
      BucketsBelow(net, key, group, n - 1);
    }
  }

  // ------------------------------------------------------------------- source groups

  // The buckets that slices 0 .. n-1 of a source group hash to.
  ghost function SourceBuckets(net: Network, key: nat, group: nat, n: nat): (buckets: set<nat>)
    ensures |buckets| <= n && forall b | b in buckets :: b < 1024
    ensures forall i | 0 <= i < n :: net.hash(NewOuter(key, group, i)) % 1024 in buckets
  {
    if n == 0 then {}
    else SourceBuckets(net, key, group, n - 1) + {net.hash(NewOuter(key, group, n - 1)) % 1024}
  }

  // However many addresses it announces, one group of sources reaches at most 64 of the 1024 buckets of
  // the new table.
  lemma SourceIsConfined(net: Network, key: nat, group: nat) returns (buckets: set<nat>)
    ensures |buckets| <= 64 && forall b | b in buckets :: b < 1024
    ensures forall service, source | net.group(source) == group :: NewSlot(net, key, service, source).bucket in buckets
    ensures forall service, source :: NewSlot(net, key, service, source).pos < 64
  {
    buckets := SourceBuckets(net, key, group, 64);
  }

  // And through one source group, all addresses of a group go to a single bucket.
  lemma GroupFromSource(net: Network, key: nat, a: Service, b: Service, source: NetAddr, other: NetAddr)
    requires net.group(a.addr) == net.group(b.addr) && net.group(source) == net.group(other)
    ensures GetNewBucket(net, key, a, source) == GetNewBucket(net, key, b, other)
  {
  }
}
