/**
 The remaining operations of the address manager (src/addrman.cpp) and its runs: from
 construction, any sequence of operations keeps every structural condition of Check_.
 */
module AddrManRun {
  import Arith
  import opened Options
  import opened AddrManState
  import opened AddrManSteps
  import opened AddrManOps
  import opened AddrManAdd

  // ------------------------------------------- Attempt_, Connected_, SetServices_

  function Attempted(info: Info, fCountFailure: bool, nLastGood: int, time: int): Info {
    var tried := info.(nLastTry := time);
    if fCountFailure && info.nLastCountAttempt < nLastGood
    then tried.(nLastCountAttempt := time, nAttempts := info.nAttempts + 1) else tried
  }

  function ConnectedAt(info: Info, time: int): Info {
    if time - info.address.nTime > 20 * 60 then info.(address := info.address.(nTime := Uint32(time))) else info
  }

  function WithServices(info: Info, nServices: bv64): Info {
    info.(address := info.address.(nServices := nServices))
  }

  function Attempt(s: State, service: Service, fCountFailure: bool, time: int): State {
    match FindExact(s, service)
    case None => s
    case Some(id) => WithInfo(s, id, Attempted(s.mapInfo[id], fCountFailure, s.nLastGood, time))
  }

  function Connected(s: State, service: Service, time: int): State {
    match FindExact(s, service)
    case None => s
    case Some(id) => WithInfo(s, id, ConnectedAt(s.mapInfo[id], time))
  }

  function SetServices(s: State, service: Service, nServices: bv64): State {
    match FindExact(s, service)
    case None => s
    case Some(id) => WithInfo(s, id, WithServices(s.mapInfo[id], nServices))
  }

  lemma TouchKeepsRun(net: Network, s: State, id: int, info: Info)
    requires Inv(net, s) && id in s.mapInfo && SamePlace(info, s.mapInfo[id])
    ensures Inv(net, WithInfo(s, id, info)) && Follows(s, WithInfo(s, id, info))
  {
    hide Between, CollisionsOccupied;
    TouchKeeps(net, s, WithInfo(s, id, info), id, info);
    TouchFollows(s, WithInfo(s, id, info), id, info);
  }

  // --------------------------------------------------------------------- GetAddr_

  // Only the order of vRandom changes.
  lemma ShuffleKeeps(net: Network, s: State, r: State)
    requires Inv(net, s) && RandomLinked(r)
    requires r == s.(mapInfo := r.mapInfo, vRandom := r.vRandom)
    requires r.mapInfo.Keys == s.mapInfo.Keys && StatsKept(s, r, s.mapInfo.Keys)
    ensures Inv(net, r) && Follows(s, r)
  {
    hide AllSettled, CollisionsOccupied, TriedPlaced, NewPlaced, RefsCounted, AddrLinked, IdsUsed, RandomLinked;
    ShuffleFollows(s, r);
    ShufflePlaced(net, s, r);
    ShuffleSettled(net, s, r);
    SameTables(s, r);
    CollisionsKept(net, s, r);
  }

  lemma ShuffleFollows(s: State, r: State)
    requires r == s.(mapInfo := r.mapInfo, vRandom := r.vRandom)
    requires r.mapInfo.Keys == s.mapInfo.Keys && StatsKept(s, r, s.mapInfo.Keys)
    ensures Follows(s, r)
  {
    forall id | id in r.mapInfo
      ensures id in s.mapInfo && r.mapInfo[id].Service() == s.mapInfo[id].Service()
    {
      assert id in r.mapInfo.Keys;
      assert Stats(r.mapInfo[id]) == Stats(s.mapInfo[id]);
    }
  }

  lemma ShufflePlaced(net: Network, s: State, r: State)
    requires TriedPlaced(net, s) && NewPlaced(net, s) && RefsCounted(s) && AddrLinked(s) && IdsUsed(s)
    requires r == s.(mapInfo := r.mapInfo, vRandom := r.vRandom)
    requires r.mapInfo.Keys == s.mapInfo.Keys && StatsKept(s, r, s.mapInfo.Keys)
    ensures TriedPlaced(net, r) && NewPlaced(net, r) && RefsCounted(r) && AddrLinked(r) && IdsUsed(r)
  {
    forall id | id in s.mapInfo
      ensures id in r.mapInfo && r.mapInfo[id] == s.mapInfo[id].(nRandomPos := r.mapInfo[id].nRandomPos)
    {
      assert id in s.mapInfo.Keys;
      assert Stats(r.mapInfo[id]) == Stats(s.mapInfo[id]);
    }
    forall slot | slot in r.vvTried
      ensures TriedPlacedAt(net, r, slot)
    {
      assert TriedPlacedAt(net, s, slot);
    }
    forall slot | slot in r.vvNew
      ensures NewPlacedAt(net, r, slot)
    {
      assert NewPlacedAt(net, s, slot);
    }
    forall id | id in r.mapInfo
      ensures id in s.mapInfo
    {
      assert id in r.mapInfo.Keys;
    }
  }

  lemma ShuffleSettled(net: Network, s: State, r: State)
    requires AllSettled(net, s, {})
    requires r == s.(mapInfo := r.mapInfo, vRandom := r.vRandom)
    requires r.mapInfo.Keys == s.mapInfo.Keys && StatsKept(s, r, s.mapInfo.Keys)
    ensures AllSettled(net, r, {})
  {
    forall id | id in r.mapInfo
      ensures Settled(net, r, id)
    {
      assert id in r.mapInfo.Keys;
      SettledKept(net, s, r, id);
    }
  }

  // Addresses of the entries of good quality, in order.
  ghost function Picked(s: State, ids: seq<int>, now: int): seq<Address>
    requires forall i | 0 <= i < |ids| :: ids[i] in s.mapInfo
  {
    if ids == [] then []
    else
      var info := s.mapInfo[ids[|ids| - 1]];
      Picked(s, ids[..|ids| - 1], now) + if info.IsTerrible(now) then [] else [info.address]
  }

  // RandomInt(size - n) + n
  function RandomPos(n: nat, size: nat, roll: nat): (pos: nat)
    requires n < size
    ensures n <= pos < size
  {
    roll % (size - n) + n
  }

  datatype Sample = Sample(state: State, vAddr: seq<Address>, count: nat)

  // The loop of GetAddr_, from position n of vRandom; dice(n) stands for the n-th random number.
  ghost function GetAddrFrom(s: State, n: nat, nNodes: nat, now: int, dice: nat -> nat, vAddr: seq<Address>): Sample
    requires RandomLinked(s) && n <= |s.vRandom|
    decreases |s.vRandom| - n
  {
    if n == |s.vRandom| || |vAddr| >= nNodes then Sample(s, vAddr, n)
    else
      var r := SwapRandom(s, n, RandomPos(n, |s.vRandom|, dice(n)));
      var info := r.mapInfo[r.vRandom[n]];
      GetAddrFrom(r, n + 1, nNodes, now, dice, if info.IsTerrible(now) then vAddr else vAddr + [info.address])
  }

  function SampleSize(s: State): nat {
    var percentage := GETADDR_MAX_PCT * |s.vRandom| / 100;
    if percentage > GETADDR_MAX then GETADDR_MAX else percentage
  }

  ghost function GetAddr(s: State, now: int, dice: nat -> nat): Sample
    requires RandomLinked(s)
  {
    GetAddrFrom(s, 0, SampleSize(s), now, dice, [])
  }

  // Swapping positions from n on does not disturb what was picked before n.
  lemma {:induction false} PickedKept(s: State, r: State, ids: seq<int>, now: int)
    requires StatsKept(s, r, s.mapInfo.Keys)
    requires forall i | 0 <= i < |ids| :: ids[i] in s.mapInfo && ids[i] in r.mapInfo
    ensures Picked(r, ids, now) == Picked(s, ids, now)
  {
    if ids != [] {
      PickedKept(s, r, ids[..|ids| - 1], now);
      var id := ids[|ids| - 1];
      assert Stats(r.mapInfo[id]) == Stats(s.mapInfo[id]);
      assert r.mapInfo[id].IsTerrible(now) == s.mapInfo[id].IsTerrible(now);
    }
  }

  // A later state in which nothing but the order of vRandom differs.
  ghost predicate Reordered(net: Network, s: State, r: State) {
    && Inv(net, r) && Follows(s, r)
    && r == s.(mapInfo := r.mapInfo, vRandom := r.vRandom)
    && r.mapInfo.Keys == s.mapInfo.Keys && StatsKept(s, r, s.mapInfo.Keys)
    && |r.vRandom| == |s.vRandom|
  }

  // The addresses are those of good quality among the first n of vRandom.
  ghost predicate PicksPrefix(s: State, n: nat, now: int, vAddr: seq<Address>) {
    && n <= |s.vRandom|
    && (forall i | 0 <= i < n :: s.vRandom[i] in s.mapInfo)
    && vAddr == Picked(s, s.vRandom[..n], now)
  }

  lemma GetAddrStep(net: Network, s: State, n: nat, now: int, roll: nat, vAddr: seq<Address>)
    requires Inv(net, s) && n < |s.vRandom| && PicksPrefix(s, n, now, vAddr) && RandomLinked(s)
    ensures
      var r := SwapRandom(s, n, RandomPos(n, |s.vRandom|, roll));
      && Reordered(net, s, r)
      && r.vRandom[n] in r.mapInfo
      && var info := r.mapInfo[r.vRandom[n]];
         PicksPrefix(r, n + 1, now, if info.IsTerrible(now) then vAddr else vAddr + [info.address])
  {
    hide Between, CollisionsOccupied, RandomLinked, Info.IsTerrible, RandomPos;
    var pos := RandomPos(n, |s.vRandom|, roll);
    var r := SwapRandom(s, n, pos);
    SwapRandomShape(s, n, pos);
    ShuffleKeeps(net, s, r);
    SwapPrefix(s, n, pos);
    LinkedAt(r, n + 1);
    PickedKept(s, r, s.vRandom[..n], now);
    assert r.vRandom[..n + 1][..n] == s.vRandom[..n];
  }

  // Every iteration keeps the invariant, and the result is the good part of a prefix of the
  // reshuffled vRandom: all of it unless the limit is reached.
  lemma {:induction false} GetAddrFromPicks(net: Network, s: State, n: nat, nNodes: nat, now: int, dice: nat -> nat,
                                            vAddr: seq<Address>)
    requires Inv(net, s) && RandomLinked(s) && PicksPrefix(s, n, now, vAddr) && |vAddr| <= nNodes
    ensures
      var sample := GetAddrFrom(s, n, nNodes, now, dice, vAddr);
      && Reordered(net, s, sample.state)
      && PicksPrefix(sample.state, sample.count, now, sample.vAddr)
      && |sample.vAddr| <= nNodes
      && (|sample.vAddr| < nNodes ==> sample.count == |s.vRandom|)
    decreases |s.vRandom| - n
  {
    hide Inv, RandomLinked, Info.IsTerrible, Follows, StatsKept, RandomPos, SwapRandom;
    if n == |s.vRandom| || |vAddr| >= nNodes {
      StatsReflexive(s);
    } else {
      GetAddrStep(net, s, n, now, dice(n), vAddr);
      var r := SwapRandom(s, n, RandomPos(n, |s.vRandom|, dice(n)));
      var info := r.mapInfo[r.vRandom[n]];
      var next := if info.IsTerrible(now) then vAddr else vAddr + [info.address];
      GetAddrFromPicks(net, r, n + 1, nNodes, now, dice, next);
      var last := GetAddrFrom(r, n + 1, nNodes, now, dice, next).state;
      StatsTransitive(s, r, last);
      FollowsTransitive(s, r, last);
    }
  }

  lemma LinkedOf(net: Network, s: State)
    requires Inv(net, s)
    ensures RandomLinked(s)
  {
  }

  lemma LinkedAt(s: State, n: nat)
    requires RandomLinked(s) && n <= |s.vRandom|
    ensures forall i | 0 <= i < n :: s.vRandom[i] in s.mapInfo
  {
  }

  lemma SwapPrefix(s: State, n: nat, pos: nat)
    requires RandomLinked(s) && n <= pos < |s.vRandom|
    ensures SwapRandom(s, n, pos).vRandom[..n] == s.vRandom[..n]
  {
  }

  lemma StatsReflexive(s: State)
    ensures StatsKept(s, s, s.mapInfo.Keys) && Follows(s, s)
  {
  }

  lemma StatsTransitive(s: State, a: State, r: State)
    requires StatsKept(s, a, s.mapInfo.Keys) && StatsKept(a, r, a.mapInfo.Keys) && a.mapInfo.Keys == s.mapInfo.Keys
    ensures StatsKept(s, r, s.mapInfo.Keys)
  {
  }

  ghost predicate DistinctAddrs(v: seq<Address>) {
    forall i, j | 0 <= i < j < |v| :: v[i].service.addr != v[j].service.addr
  }

  // Picking from distinct ids yields exactly the entries of good quality, each once.
  lemma {:induction false} PickedExactly(s: State, ids: seq<int>, now: int)
    requires AddrLinked(s)
    requires forall i | 0 <= i < |ids| :: ids[i] in s.mapInfo
    requires forall i, j | 0 <= i < j < |ids| :: ids[i] != ids[j]
    ensures forall a :: a in Picked(s, ids, now) <==>
      exists i :: 0 <= i < |ids| && s.mapInfo[ids[i]].address == a && !s.mapInfo[ids[i]].IsTerrible(now)
    ensures DistinctAddrs(Picked(s, ids, now))
  {
    hide Info.IsTerrible;
    if ids != [] {
      var last := |ids| - 1;
      var init := ids[..last];
      PickedExactly(s, init, now);
      var info := s.mapInfo[ids[last]];
      forall a
        ensures a in Picked(s, ids, now) <==>
          exists i :: 0 <= i < |ids| && s.mapInfo[ids[i]].address == a && !s.mapInfo[ids[i]].IsTerrible(now)
      {
        if a in Picked(s, init, now) {
          var i :| 0 <= i < |init| && s.mapInfo[init[i]].address == a && !s.mapInfo[init[i]].IsTerrible(now);
          assert ids[i] == init[i];
        }
      }
      forall j | 0 <= j < |Picked(s, init, now)|
        ensures Picked(s, init, now)[j].service.addr != info.Addr()
      {
        var a := Picked(s, init, now)[j];
        assert a in Picked(s, init, now);
        var i :| 0 <= i < |init| && s.mapInfo[init[i]].address == a && !s.mapInfo[init[i]].IsTerrible(now);
        assert ids[i] != ids[last];
        assert s.mapAddr[s.mapInfo[init[i]].Addr()] == init[i];
      }
    }
  }

  // GetAddr_: a bounded sample without repetition of known addresses of good quality, and all
  // of them if there are fewer than the bound; nothing else changes but the order of vRandom.
  lemma GetAddrSamples(net: Network, s: State, now: int, dice: nat -> nat)
    requires Inv(net, s)
    ensures RandomLinked(s)
    ensures
      var sample := GetAddr(s, now, dice);
      && Reordered(net, s, sample.state)
      && |sample.vAddr| <= GETADDR_MAX && 100 * |sample.vAddr| <= GETADDR_MAX_PCT * |s.vRandom|
      && DistinctAddrs(sample.vAddr)
      && (forall a | a in sample.vAddr ::
            exists id :: id in s.mapInfo && s.mapInfo[id].address == a && !s.mapInfo[id].IsTerrible(now))
      && |sample.vAddr| == Arith.Min(Arith.Min(2500, 23 * |s.vRandom| / 100), |GoodIds(s, now)|)
      && (|sample.vAddr| < Arith.Min(2500, 23 * |s.vRandom| / 100) ==>
            forall id | id in s.mapInfo && !s.mapInfo[id].IsTerrible(now) :: s.mapInfo[id].address in sample.vAddr)
  {
    hide Inv, RandomLinked, Info.IsTerrible, Follows, StatsKept, GetAddrFrom, SampleSize, GoodIds, DistinctAddrs;
    LinkedOf(net, s);
    SizeIs(s);
    GetAddrFromPicks(net, s, 0, SampleSize(s), now, dice, []);
    hide Picked;
    var sample := GetAddr(s, now, dice);
    SampleSound(net, s, sample.state, sample.count, now, sample.vAddr);
    LinkedOf(net, sample.state);
    SampleSized(s, sample.state, sample.count, now, sample.vAddr);
    if |sample.vAddr| < SampleSize(s) {
      SampleComplete(net, s, sample.state, now, sample.vAddr);
    }
  }

  lemma SizeIs(s: State)
    ensures SampleSize(s) == Arith.Min(2500, 23 * |s.vRandom| / 100)
    ensures SampleSize(s) <= 2500 && 100 * SampleSize(s) <= 23 * |s.vRandom| && (|s.vRandom| >= 5 ==> SampleSize(s) >= 1)
  {
  }

  // The entries of good quality.
  ghost function GoodIds(s: State, now: int): set<int> {
    set id | id in s.mapInfo && !s.mapInfo[id].IsTerrible(now)
  }

  ghost function GoodAmong(s: State, ids: seq<int>, now: int): set<int> {
    set id | id in ids && id in s.mapInfo && !s.mapInfo[id].IsTerrible(now)
  }

  lemma {:induction false} PickedSize(s: State, ids: seq<int>, now: int)
    requires forall i | 0 <= i < |ids| :: ids[i] in s.mapInfo
    requires forall i, j | 0 <= i < j < |ids| :: ids[i] != ids[j]
    ensures |Picked(s, ids, now)| == |GoodAmong(s, ids, now)|
  {
    hide Info.IsTerrible;
    if ids == [] {
      assert GoodAmong(s, ids, now) == {};
    } else {
      var init, last := ids[..|ids| - 1], ids[|ids| - 1];
      PickedSize(s, init, now);
      GoodAmongNext(s, init, last, now);
      assert init + [last] == ids;
    }
  }

  lemma GoodAmongNext(s: State, init: seq<int>, last: int, now: int)
    requires last in s.mapInfo && last !in init
    ensures |GoodAmong(s, init + [last], now)|
         == |GoodAmong(s, init, now)| + if s.mapInfo[last].IsTerrible(now) then 0 else 1
  {
    hide Info.IsTerrible;
    var before, after := GoodAmong(s, init, now), GoodAmong(s, init + [last], now);
    assert last !in before;
    if s.mapInfo[last].IsTerrible(now) {
      assert after == before;
    } else {
      assert after == before + {last};
    }
  }

  lemma {:induction false} SubsetSmaller(a: set<int>, b: set<int>)
    requires a <= b
    ensures |a| <= |b|
  {
    assert |b - a| == |b| - |a|;
  }

  // As many as were picked, of those of good quality; all of them if everything was looked at.
  lemma SampleSized(s: State, r: State, n: nat, now: int, vAddr: seq<Address>)
    requires RandomLinked(r) && r.mapInfo.Keys == s.mapInfo.Keys && StatsKept(s, r, s.mapInfo.Keys)
    requires PicksPrefix(r, n, now, vAddr)
    ensures |vAddr| <= |GoodIds(s, now)| && (n == |r.vRandom| ==> |vAddr| == |GoodIds(s, now)|)
  {
    hide Info.IsTerrible;
    var ids := r.vRandom[..n];
    DistinctIds(r, n);
    PickedSize(r, ids, now);
    forall id | id in r.mapInfo
      ensures id in s.mapInfo && r.mapInfo[id].IsTerrible(now) == s.mapInfo[id].IsTerrible(now)
    {
      SameQuality(s, r, id, now);
    }
    SubsetSmaller(GoodAmong(r, ids, now), GoodIds(s, now));
    if n == |r.vRandom| {
      forall id | id in GoodIds(s, now)
        ensures id in GoodAmong(r, ids, now)
      {
        assert id in s.mapInfo.Keys;
        assert ids[r.mapInfo[id].nRandomPos] == id;
      }
      assert GoodAmong(r, ids, now) == GoodIds(s, now);
    }
  }

  lemma {:induction false} SampleExtends(s: State, n: nat, nNodes: nat, now: int, dice: nat -> nat, vAddr: seq<Address>)
    requires RandomLinked(s) && n <= |s.vRandom|
    ensures vAddr <= GetAddrFrom(s, n, nNodes, now, dice, vAddr).vAddr
    decreases |s.vRandom| - n
  {
    hide Info.IsTerrible, RandomLinked;
    if n < |s.vRandom| && |vAddr| < nNodes {
      var r := SwapRandom(s, n, RandomPos(n, |s.vRandom|, dice(n)));
      SwapSize(s, n, RandomPos(n, |s.vRandom|, dice(n)));
      LinkedAt(r, n + 1);
      var info := r.mapInfo[r.vRandom[n]];
      SampleExtends(r, n + 1, nNodes, now, dice, if info.IsTerrible(now) then vAddr else vAddr + [info.address]);
    }
  }

  lemma SwapSize(s: State, n: nat, pos: nat)
    requires RandomLinked(s) && n <= pos < |s.vRandom|
    ensures |SwapRandom(s, n, pos).vRandom| == |s.vRandom| && SwapRandom(s, n, pos).vRandom[n] == s.vRandom[pos]
    ensures s.vRandom[pos] in SwapRandom(s, n, pos).mapInfo
    ensures Stats(SwapRandom(s, n, pos).mapInfo[s.vRandom[pos]]) == Stats(s.mapInfo[s.vRandom[pos]])
  {
  }

  // Whoever is of good quality can be the first of the sample, if it is not empty.
  lemma AnybodyCanBeFirst(net: Network, s: State, id: int, now: int) returns (dice: nat -> nat)
    requires Inv(net, s) && id in s.mapInfo && !s.mapInfo[id].IsTerrible(now) && |s.vRandom| >= 5
    ensures RandomLinked(s)
    ensures
      var vAddr := GetAddr(s, now, dice).vAddr;
      vAddr != [] && vAddr[0] == s.mapInfo[id].address
  {
    LinkedOf(net, s);
    var pos: nat := s.mapInfo[id].nRandomPos;
    dice := (n: nat) => pos;
    hide Inv, RandomPos, SampleSize;
    SizeIs(s);
    FirstPick(s, id, SampleSize(s), now, dice);
  }

  lemma SameStats(a: Info, b: Info, now: int)
    requires Stats(a) == Stats(b)
    ensures a.IsTerrible(now) == b.IsTerrible(now) && a.address == b.address
  {
  }

  lemma RandomPosAny(size: nat, roll: nat)
    requires roll < size
    ensures RandomPos(0, size, roll) == roll
  {
  }

  lemma FirstPick(s: State, id: int, nNodes: nat, now: int, dice: nat -> nat)
    requires RandomLinked(s) && id in s.mapInfo && !s.mapInfo[id].IsTerrible(now) && nNodes >= 1
    requires dice(0) == s.mapInfo[id].nRandomPos
    ensures
      var vAddr := GetAddrFrom(s, 0, nNodes, now, dice, []).vAddr;
      vAddr != [] && vAddr[0] == s.mapInfo[id].address
  {
    var pos: nat := dice(0);
    assert pos < |s.vRandom| && s.vRandom[pos] == id;
    hide SwapRandom, Info.IsTerrible, RandomLinked, RandomPos;
    RandomPosAny(|s.vRandom|, pos);
    SwapSize(s, 0, pos);
    var r := SwapRandom(s, 0, pos);
    SameStats(s.mapInfo[id], r.mapInfo[id], now);
    assert [] + [r.mapInfo[id].address] == [r.mapInfo[id].address];
    SampleExtends(r, 1, nNodes, now, dice, [r.mapInfo[id].address]);
  }

  lemma SampleSound(net: Network, s: State, r: State, n: nat, now: int, vAddr: seq<Address>)
    requires Inv(net, s) && Reordered(net, s, r) && PicksPrefix(r, n, now, vAddr)
    ensures DistinctAddrs(vAddr)
    ensures forall a | a in vAddr ::
      exists id :: id in s.mapInfo && s.mapInfo[id].address == a && !s.mapInfo[id].IsTerrible(now)
  {
    hide CollisionsOccupied, AllSettled, Follows, DistinctAddrs;
    DistinctIds(r, n);
    PickedExactly(r, r.vRandom[..n], now);
    forall a | a in vAddr
      ensures exists id :: id in s.mapInfo && s.mapInfo[id].address == a && !s.mapInfo[id].IsTerrible(now)
    {
      var i :| 0 <= i < n && r.mapInfo[r.vRandom[..n][i]].address == a
        && !r.mapInfo[r.vRandom[..n][i]].IsTerrible(now);
      SameQuality(s, r, r.vRandom[i], now);
    }
  }

  lemma SampleComplete(net: Network, s: State, r: State, now: int, vAddr: seq<Address>)
    requires Inv(net, s) && Reordered(net, s, r) && PicksPrefix(r, |r.vRandom|, now, vAddr)
    ensures forall id | id in s.mapInfo && !s.mapInfo[id].IsTerrible(now) :: s.mapInfo[id].address in vAddr
  {
    hide CollisionsOccupied, AllSettled, Follows, DistinctAddrs;
    DistinctIds(r, |r.vRandom|);
    PickedExactly(r, r.vRandom[..|r.vRandom|], now);
    forall id | id in s.mapInfo && !s.mapInfo[id].IsTerrible(now)
      ensures s.mapInfo[id].address in vAddr
    {
      assert id in s.mapInfo.Keys;
      SameQuality(s, r, id, now);
      assert r.vRandom[..|r.vRandom|][r.mapInfo[id].nRandomPos] == id;
    }
  }

  lemma SameQuality(s: State, r: State, id: int, now: int)
    requires r.mapInfo.Keys == s.mapInfo.Keys && StatsKept(s, r, s.mapInfo.Keys) && id in r.mapInfo
    ensures id in s.mapInfo && r.mapInfo[id].address == s.mapInfo[id].address
    ensures r.mapInfo[id].IsTerrible(now) == s.mapInfo[id].IsTerrible(now)
  {
    assert id in r.mapInfo.Keys;
    assert Stats(r.mapInfo[id]) == Stats(s.mapInfo[id]);
  }

  lemma DistinctIds(s: State, n: nat)
    requires RandomLinked(s) && n <= |s.vRandom|
    ensures forall i | 0 <= i < n :: s.vRandom[..n][i] in s.mapInfo
    ensures forall i, j | 0 <= i < j < n :: s.vRandom[..n][i] != s.vRandom[..n][j]
  {
  }

  // ------------------------------------------------------------ tried collisions

  function Dropped(s: State, id: int): State {
    s.(triedCollisions := s.triedCollisions - {id})
  }

  const REPLACEMENT := REPLACEMENT_HOURS * 60 * 60

  // One iteration of ResolveCollisions_.
  ghost function ResolveOne(net: Network, s: State, id: int, now: int): State
    requires Inv(net, s)
  {
    if id !in s.mapInfo then Dropped(s, id)
    else
      var info := s.mapInfo[id];
      var slot := TriedSlot(net, s.nKey, info.Service());
      if !net.isValid(info.Addr()) then Dropped(s, id)
      else if slot !in s.vvTried then Dropped(Good(net, s, info.Service(), false, now), id)
      else
        OccupantKnown(net, s, slot);
        var old_ := s.mapInfo[s.vvTried[slot]];
        if now - old_.nLastSuccess < REPLACEMENT then Dropped(s, id)
        else if now - old_.nLastTry < REPLACEMENT && now - old_.nLastTry > 60
        then Dropped(Good(net, s, info.Service(), false, now), id)
        else s
  }

  lemma OccupantKnown(net: Network, s: State, slot: Slot)
    requires Inv(net, s) && slot in s.vvTried
    ensures s.vvTried[slot] in s.mapInfo && s.mapInfo[s.vvTried[slot]].fInTried
  {
    assert TriedPlacedAt(net, s, slot);
  }

  lemma DroppedKeeps(net: Network, s: State, id: int)
    requires Inv(net, s)
    ensures Inv(net, Dropped(s, id)) && Follows(s, Dropped(s, id))
  {
    hide Between;
    assert s.triedCollisions == (s.triedCollisions - {id}) + (s.triedCollisions * {id});
    CollisionsKept(net, s, Dropped(s, id));
    MetaKeeps(net, s, Dropped(s, id));
  }

  lemma ResolveOneKeeps(net: Network, s: State, id: int, now: int)
    requires Inv(net, s)
    ensures
      var r := ResolveOne(net, s, id, now);
      Inv(net, r) && Follows(s, r)
  {
    hide Inv, Follows, Good, Dropped;
    StatsReflexive(s);
    DroppedKeeps(net, s, id);
    if id in s.mapInfo {
      var r := Good(net, s, s.mapInfo[id].Service(), false, now);
      GoodKeeps(net, s, s.mapInfo[id].Service(), false, now);
      DroppedKeeps(net, r, id);
      FollowsTransitive(s, r, Dropped(r, id));
    }
  }

  // "Collision is not actually a collision anymore" is never the case: a recorded collision
  // with a known id is with an occupied slot.
  lemma CollisionIsReal(net: Network, s: State, id: int)
    requires Inv(net, s) && id in s.triedCollisions && id in s.mapInfo
    ensures TriedSlot(net, s.nKey, s.mapInfo[id].Service()) in s.vvTried
  {
  }

  predicate Least(id: int, todo: set<int>) {
    id in todo && forall k | k in todo :: id <= k
  }

  lemma {:induction false} LeastExists(todo: set<int>)
    requires todo != {}
    ensures exists id :: Least(id, todo)
    decreases |todo|
  {
    var some := Member(todo);
    var rest := todo - {some};
    assert todo == rest + {some};
    if rest == {} {
      assert Least(some, todo);
    } else {
      LeastExists(rest);
      var id :| Least(id, rest);
      assert Least(if some < id then some else id, todo);
    }
  }

  lemma LeastUnique(todo: set<int>, id: int)
    requires Least(id, todo)
    ensures forall k | Least(k, todo) :: k == id
  {
  }

  lemma Member(todo: set<int>) returns (id: int)
    requires todo != {}
    ensures id in todo
  {
    if forall k :: k !in todo {
      assert false;
    }
    id :| id in todo;
  }

  // ResolveCollisions_ visits the recorded ids in increasing order.
  ghost function ResolveFrom(net: Network, s: State, todo: set<int>, now: int): (r: State)
    requires Inv(net, s)
    decreases |todo|
  {
    if todo == {} then s
    else
      LeastExists(todo);
      var id :| Least(id, todo);
      ResolveOneKeeps(net, s, id, now);
      ResolveFrom(net, ResolveOne(net, s, id, now), todo - {id}, now)
  }

  lemma {:induction false} ResolveFromKeeps(net: Network, s: State, todo: set<int>, now: int)
    requires Inv(net, s)
    ensures
      var r := ResolveFrom(net, s, todo, now);
      Inv(net, r) && Follows(s, r)
    decreases |todo|
  {
    hide Inv, Follows;
    if todo == {} {
      StatsReflexive(s);
    } else {
      LeastExists(todo);
      var id :| Least(id, todo);
      var first := ResolveOne(net, s, id, now);
      ResolveOneKeeps(net, s, id, now);
      ResolveFromKeeps(net, first, todo - {id}, now);
      FollowsTransitive(s, first, ResolveFrom(net, first, todo - {id}, now));
    }
  }

  ghost function ResolveCollisions(net: Network, s: State, now: int): State
    requires Inv(net, s)
  {
    ResolveFrom(net, s, s.triedCollisions, now)
  }

  // The id in the tried slot of an entry, -1 for an empty slot.
  function LookedUp(net: Network, s: State, pick: int): int
    requires pick in s.mapInfo
  {
    var slot := TriedSlot(net, s.nKey, s.mapInfo[pick].Service());
    if slot in s.vvTried then s.vvTried[slot] else -1
  }

  // SelectTriedCollision_ with the randomly selected element given, if there is any: the id
  // looked up in mapInfo is never -1, that is, the slot looked at is occupied by a known id.
  ghost function SelectTriedCollision(net: Network, s: State, pick: int): (r: (State, Option<Info>))
    requires Inv(net, s) && (s.triedCollisions != {} ==> pick in s.triedCollisions)
    ensures r.1.None? <==> s.triedCollisions == {} || pick !in s.mapInfo
    ensures s.triedCollisions == {} ==> r.0 == s
    ensures r.1.Some? ==>
      && r.0 == s && LookedUp(net, s, pick) != -1 && LookedUp(net, s, pick) in s.mapInfo
      && r.1.value == s.mapInfo[LookedUp(net, s, pick)] && r.1.value.fInTried
  {
    if s.triedCollisions == {} then (s, None)
    else if pick !in s.mapInfo then (Dropped(s, pick), None)
    else
      CollisionIsReal(net, s, pick);
      var slot := TriedSlot(net, s.nKey, s.mapInfo[pick].Service());
      OccupantKnown(net, s, slot);
      assert s.vvTried[slot] in s.mapInfo.Keys;
      IdBelowCount(net, s, s.vvTried[slot]);
      (s, Some(s.mapInfo[s.vvTried[slot]]))
  }

  // ------------------------------------------------------------------------ runs

  datatype Op =
    | OpAdd(address: Address, source: NetAddr, nTimePenalty: int, now: int, dice: nat)
    | OpGood(service: Service, testBeforeEvict: bool, time: int)
    | OpAttempt(service: Service, fCountFailure: bool, time: int)
    | OpConnected(service: Service, time: int)
    | OpSetServices(service: Service, nServices: bv64)
    | OpGetAddr(now: int, rolls: nat -> nat)
    | OpResolve(now: int)
    | OpSelect(pick: int)

  // The state after construction, for any key.
  function Fresh(key: nat): State {
    State(key, 0, map[], map[], [], 0, map[], 0, map[], 1, {})
  }

  ghost function Apply(net: Network, s: State, op: Op): State
    requires Inv(net, s)
  {
    match op
    case OpAdd(address, source, penalty, now, dice) => Add(net, s, address, source, penalty, now, dice)
    case OpGood(service, test, time) => Good(net, s, service, test, time)
    case OpAttempt(service, count, time) => Attempt(s, service, count, time)
    case OpConnected(service, time) => Connected(s, service, time)
    case OpSetServices(service, nServices) => SetServices(s, service, nServices)
    case OpGetAddr(now, rolls) => LinkedOf(net, s); GetAddr(s, now, rolls).state
    case OpResolve(now) => ResolveCollisions(net, s, now)
    case OpSelect(pick) => if pick in s.triedCollisions then SelectTriedCollision(net, s, pick).0 else s
  }

  lemma ApplyKeeps(net: Network, s: State, op: Op)
    requires Inv(net, s)
    ensures Inv(net, Apply(net, s, op)) && Follows(s, Apply(net, s, op))
  {
    hide Inv, Follows, Good, Add, GetAddr, ResolveCollisions, Dropped;
    StatsReflexive(s);
    match op
    case OpAdd(address, source, penalty, now, dice) => AddKeeps(net, s, address, source, penalty, now, dice);
    case OpGood(service, test, time) => GoodKeeps(net, s, service, test, time);
    case OpAttempt(service, count, time) =>
      if FindExact(s, service).Some? {
        var id := FindExact(s, service).value;
        TouchKeepsRun(net, s, id, Attempted(s.mapInfo[id], count, s.nLastGood, time));
      }
    case OpConnected(service, time) =>
      if FindExact(s, service).Some? {
        var id := FindExact(s, service).value;
        TouchKeepsRun(net, s, id, ConnectedAt(s.mapInfo[id], time));
      }
    case OpSetServices(service, nServices) =>
      if FindExact(s, service).Some? {
        var id := FindExact(s, service).value;
        TouchKeepsRun(net, s, id, WithServices(s.mapInfo[id], nServices));
      }
    case OpGetAddr(now, rolls) => GetAddrSamples(net, s, now, rolls);
    case OpResolve(now) => ResolveKeeps(net, s, now);
    case OpSelect(pick) => DroppedKeeps(net, s, pick);
  }

  lemma ResolveKeeps(net: Network, s: State, now: int)
    requires Inv(net, s)
    ensures Inv(net, ResolveCollisions(net, s, now)) && Follows(s, ResolveCollisions(net, s, now))
  {
    ResolveFromKeeps(net, s, s.triedCollisions, now);
  }

  ghost function Run(net: Network, s: State, ops: seq<Op>): State
    requires Inv(net, s)
    decreases |ops|
  {
    if ops == [] then s
    else
      ApplyKeeps(net, s, ops[0]);
      Run(net, Apply(net, s, ops[0]), ops[1..])
  }

  lemma FreshInv(net: Network, key: nat)
    ensures Inv(net, Fresh(key))
  {
    var s := Fresh(key);
    assert TriedIds(s) == {} && NewIds(s) == {};
  }

  // Every run keeps the invariant from any state that has it on: ids are never reused and
  // no occupied tried slot is ever found empty later.
  lemma {:induction false} RunKeeps(net: Network, s: State, ops: seq<Op>)
    requires Inv(net, s)
    ensures Inv(net, Run(net, s, ops)) && Follows(s, Run(net, s, ops))
    decreases |ops|
  {
    hide Inv, Follows, Apply;
    if ops == [] {
      StatsReflexive(s);
    } else {
      ApplyKeeps(net, s, ops[0]);
      var next := Apply(net, s, ops[0]);
      RunKeeps(net, next, ops[1..]);
      FollowsTransitive(s, next, Run(net, next, ops[1..]));
    }
  }
}
