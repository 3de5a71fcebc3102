/**
 Unserialize of src/addrman.h on arbitrary streams: which of the conditions of Check_ hold
 whatever was read, and which depend on what the entries say.
 */
module AddrManStream {
  import opened Options
  import opened AddrManState
  import opened AddrManSteps
  import opened AddrManRun
  import opened AddrManSerial
  import opened AddrManCheck

  // Every tried id is in its slot.
  ghost predicate TriedHeld(net: Network, s: State) {
    forall id | IsTriedId(s, id) :: Holds(s.vvTried, TriedSlot(net, s.nKey, s.mapInfo[id].Service()), id)
  }

  // Nothing that is read has been tried in this process.
  ghost predicate NeverTried(s: State) {
    forall id | id in s.mapInfo :: s.mapInfo[id].nLastTry == 0
  }

  // What holds at any time while reading: all of the invariant that does not rest on the
  // addresses being different.
  ghost predicate Rebuilt(net: Network, s: State) {
    && RandomLinked(s)
    && TriedPlaced(net, s)
    && NewPlaced(net, s)
    && RefsCounted(s)
    && TriedHeld(net, s)
    && NeverTried(s)
  }

  // Ids are given in order, those below `split` to new entries.
  ghost predicate InOrderTo(s: State, next: int, split: int) {
    && (forall id :: id in s.mapInfo <==> 0 <= id < next)
    && (forall id | id in s.mapInfo :: s.mapInfo[id].fInTried <==> id >= split)
  }

  lemma NoRefs(net: Network, s: State, id: int)
    requires NewPlaced(net, s) && id !in s.mapInfo
    ensures Refs(s.vvNew, id) == {}
  {
    forall slot | slot in s.vvNew
      ensures s.vvNew[slot] != id
    {
      assert NewPlacedAt(net, s, slot);
    }
  }

  // A new entry without a reference.
  function Appended(s: State, n: int, info: Info): State {
    s.(mapInfo := s.mapInfo[n := info], mapAddr := s.mapAddr[info.Addr() := n], vRandom := s.vRandom + [n])
  }

  lemma AppendRebuilt(net: Network, s: State, n: int, saved: Saved)
    requires Rebuilt(net, s) && n !in s.mapInfo
    ensures Rebuilt(net, Appended(s, n, Load(saved, |s.vRandom|)))
  {
    hide TriedSlot, NewSlotIn;
    var r := Appended(s, n, Load(saved, |s.vRandom|));
    NoRefs(net, s, n);
    forall slot | slot in r.vvTried
      ensures TriedPlacedAt(net, r, slot)
    {
      assert TriedPlacedAt(net, s, slot);
    }
    forall slot | slot in r.vvNew
      ensures NewPlacedAt(net, r, slot)
    {
      assert NewPlacedAt(net, s, slot);
    }
    forall id | IsTriedId(r, id)
      ensures Holds(r.vvTried, TriedSlot(net, r.nKey, r.mapInfo[id].Service()), id)
    {
      assert IsTriedId(s, id);
    }
  }

  // One more reference in a free slot.
  lemma AddRefRebuilt(net: Network, s: State, id: int, bucket: nat)
    requires Rebuilt(net, s) && id in s.mapInfo && !s.mapInfo[id].fInTried && bucket < NEW_BUCKET_COUNT
    requires s.mapInfo[id].nRefCount < NEW_BUCKETS_PER_ADDRESS
    requires NewSlotIn(net, s.nKey, s.mapInfo[id].Service(), bucket) !in s.vvNew
    ensures Rebuilt(net, AddRef(s, id, NewSlotIn(net, s.nKey, s.mapInfo[id].Service(), bucket)))
  {
    hide TriedSlot;
    var slot := NewSlotIn(net, s.nKey, s.mapInfo[id].Service(), bucket);
    var r := AddRef(s, id, slot);
    assert slot.bucket == bucket;
    hide NewSlotIn;
    CountsAfterSet(s, r, id, slot);
    hide Refs, RefsCounted;
    forall other | other in r.vvTried
      ensures TriedPlacedAt(net, r, other)
    {
      assert TriedPlacedAt(net, s, other);
    }
    forall other | other in r.vvNew
      ensures NewPlacedAt(net, r, other)
    {
      assert other != slot ==> NewPlacedAt(net, s, other);
    }
    forall k | IsTriedId(r, k)
      ensures Holds(r.vvTried, TriedSlot(net, r.nKey, r.mapInfo[k].Service()), k)
    {
      assert IsTriedId(s, k);
    }
  }

  lemma LoadNewRebuilt(net: Network, s: State, saved: Saved, n: nat, count: int, usable: bool)
    requires Rebuilt(net, s) && InOrderTo(s, n, count) && n < count
    ensures
      var r := LoadNew(net, s, saved, n, usable);
      Rebuilt(net, r) && InOrderTo(r, n + 1, count) && r.nNew == s.nNew && r.nTried == s.nTried && r.nKey == s.nKey
  {
    hide Rebuilt, NewSlotIn, GetNewBucket;
    var info := Load(saved, |s.vRandom|);
    var bucket := GetNewBucket(net, s.nKey, info.Service(), info.source);
    AppendRebuilt(net, s, n, saved);
    var loaded := Appended(s, n, info);
    var slot := NewSlotIn(net, s.nKey, info.Service(), bucket);
    if !usable && slot !in s.vvNew {
      AddRefRebuilt(net, loaded, n, bucket);
      assert LoadNew(net, s, saved, n, usable) == AddRef(loaded, n, slot);
    }
  }

  // A tried entry in its free slot.
  ghost predicate TriedAdded(net: Network, s: State, r: State, id: int, info: Info) {
    && id !in s.mapInfo && info.fInTried && info.nRefCount == 0 && info.nLastTry == 0
    && info.nRandomPos == |s.vRandom| && TriedSlot(net, s.nKey, info.Service()) !in s.vvTried
    && r.nKey == s.nKey && r.mapInfo == s.mapInfo[id := info] && r.vRandom == s.vRandom + [id]
    && r.vvNew == s.vvNew && r.vvTried == s.vvTried[TriedSlot(net, s.nKey, info.Service()) := id]
  }

  lemma TriedRebuilt(net: Network, s: State, r: State, id: int, info: Info)
    requires Rebuilt(net, s) && TriedAdded(net, s, r, id, info)
    ensures Rebuilt(net, r)
  {
    hide RandomLinked, TriedPlaced, NewPlaced, RefsCounted, TriedHeld, NeverTried, TriedAdded;
    TriedLinked(net, s, r, id, info);
    TriedFiled(net, s, r, id, info);
  }

  lemma TriedLinked(net: Network, s: State, r: State, id: int, info: Info)
    requires RandomLinked(s) && NewPlaced(net, s) && RefsCounted(s) && NeverTried(s) && TriedAdded(net, s, r, id, info)
    ensures RandomLinked(r) && RefsCounted(r) && NeverTried(r)
  {
    hide TriedSlot;
    NoRefs(net, s, id);
    hide NewPlaced;
  }

  lemma TriedFiled(net: Network, s: State, r: State, id: int, info: Info)
    requires TriedPlaced(net, s) && NewPlaced(net, s) && TriedHeld(net, s) && TriedAdded(net, s, r, id, info)
    ensures TriedPlaced(net, r) && NewPlaced(net, r) && TriedHeld(net, r)
  {
    hide TriedSlot, NewSlotIn;
    forall slot | slot in r.vvTried
      ensures TriedPlacedAt(net, r, slot)
    {
      assert slot in s.vvTried ==> TriedPlacedAt(net, s, slot);
    }
    forall slot | slot in r.vvNew
      ensures NewPlacedAt(net, r, slot)
    {
      assert NewPlacedAt(net, s, slot);
    }
    forall k | IsTriedId(r, k)
      ensures Holds(r.vvTried, TriedSlot(net, r.nKey, r.mapInfo[k].Service()), k)
    {
      assert k in s.mapInfo ==> IsTriedId(s, k);
    }
  }

  lemma LoadTriedRebuilt(net: Network, s: State, saved: Saved, split: int)
    requires Rebuilt(net, s) && InOrderTo(s, s.nIdCount, split) && 0 <= split <= s.nIdCount
    ensures
      var r := LoadTried(net, s, saved);
      && Rebuilt(net, r) && InOrderTo(r, r.nIdCount, split) && s.nIdCount <= r.nIdCount
      && r.nNew == s.nNew && r.nTried - r.nIdCount == s.nTried - s.nIdCount - 1 && r.nKey == s.nKey
  {
    hide Rebuilt, TriedSlot;
    var r := LoadTried(net, s, saved);
    var info := Load(saved, |s.vRandom|).(fInTried := true);
    if TriedSlot(net, s.nKey, info.Service()) in s.vvTried {
      TalliesFree(net, s, r);
    } else {
      TriedRebuilt(net, s, r, s.nIdCount, info);
    }
  }

  // The counts do not matter.
  lemma TalliesFree(net: Network, s: State, r: State)
    requires Rebuilt(net, s) && r == s.(nTried := r.nTried, nIdCount := r.nIdCount)
    ensures Rebuilt(net, r)
  {
    hide TriedSlot, NewSlotIn;
    forall slot | slot in r.vvTried
      ensures TriedPlacedAt(net, r, slot)
    {
      assert TriedPlacedAt(net, s, slot);
    }
    forall slot | slot in r.vvNew
      ensures NewPlacedAt(net, r, slot)
    {
      assert NewPlacedAt(net, s, slot);
    }
    forall k | IsTriedId(r, k)
      ensures Holds(r.vvTried, TriedSlot(net, r.nKey, r.mapInfo[k].Service()), k)
    {
      assert IsTriedId(s, k);
    }
  }

  lemma LoadRefRebuilt(net: Network, s: State, bucket: nat, index: int, usable: bool, next: int)
    requires Rebuilt(net, s) && InOrderTo(s, next, s.nNew) && (usable ==> bucket < NEW_BUCKET_COUNT)
    ensures
      var r := LoadRef(net, s, bucket, index, usable);
      && Rebuilt(net, r) && InOrderTo(r, next, r.nNew)
      && r.nNew == s.nNew && r.nTried == s.nTried && r.nKey == s.nKey
  {
    hide Rebuilt, NewSlotIn;
    var slot := if index in s.mapInfo then NewSlotIn(net, s.nKey, s.mapInfo[index].Service(), bucket) else Slot(0, 0);
    if 0 <= index < s.nNew && index in s.mapInfo && usable && slot !in s.vvNew
       && s.mapInfo[index].nRefCount < NEW_BUCKETS_PER_ADDRESS {
      AddRefRebuilt(net, s, index, bucket);
    }
  }

  // --------------------------------------------------------------- the reading loops

  lemma {:induction false} ReadNewRebuilt(net: Network, s: State, tokens: seq<Token>, n: nat, count: int, usable: bool)
    requires Rebuilt(net, s) && InOrderTo(s, n, count) && n <= count
    ensures
      var read := ReadNew(net, s, tokens, n, count, usable);
      read.Done? ==>
        && Rebuilt(net, read.state) && InOrderTo(read.state, count, count)
        && read.state.nNew == s.nNew && read.state.nTried == s.nTried && read.state.nKey == s.nKey
    decreases count - n
  {
    hide Rebuilt, LoadNew, InOrderTo;
    if n < count && tokens != [] && tokens[0].Entry? {
      LoadNewRebuilt(net, s, tokens[0].saved, n, count, usable);
      ReadNewRebuilt(net, LoadNew(net, s, tokens[0].saved, n, usable), tokens[1..], n + 1, count, usable);
    }
  }

  lemma {:induction false} ReadTriedRebuilt(net: Network, s: State, tokens: seq<Token>, n: nat, count: int, split: int)
    requires Rebuilt(net, s) && InOrderTo(s, s.nIdCount, split) && 0 <= split <= s.nIdCount && n <= count
    ensures
      var read := ReadTried(net, s, tokens, n, count);
      read.Done? ==>
        var r := read.state;
        && Rebuilt(net, r) && InOrderTo(r, r.nIdCount, split) && s.nIdCount <= r.nIdCount
        && r.nNew == s.nNew && r.nTried - r.nIdCount == s.nTried - s.nIdCount - (count - n) && r.nKey == s.nKey
    decreases count - n
  {
    hide Rebuilt, LoadTried, InOrderTo;
    if n < count && tokens != [] && tokens[0].Entry? {
      LoadTriedRebuilt(net, s, tokens[0].saved, split);
      ReadTriedRebuilt(net, LoadTried(net, s, tokens[0].saved), tokens[1..], n + 1, count, split);
    }
  }

  // Reading the table touches references only.
  ghost predicate StillRebuilt(net: Network, s: State, r: State, next: int) {
    && Rebuilt(net, r) && InOrderTo(r, next, r.nNew)
    && r.nNew == s.nNew && r.nTried == s.nTried && r.nKey == s.nKey
  }

  lemma {:induction false} ReadBucketRebuilt(net: Network, s: State, tokens: seq<Token>, bucket: nat, n: nat, size: int,
                                             usable: bool, next: int)
    requires Rebuilt(net, s) && InOrderTo(s, next, s.nNew) && (usable ==> bucket < NEW_BUCKET_COUNT)
    ensures
      var read := ReadBucket(net, s, tokens, bucket, n, size, usable);
      read.Done? ==> StillRebuilt(net, s, read.state, next)
    decreases size - n
  {
    hide Rebuilt, LoadRef, InOrderTo;
    if n < size && tokens != [] && tokens[0].Num? {
      LoadRefRebuilt(net, s, bucket, tokens[0].n, usable, next);
      var r := LoadRef(net, s, bucket, tokens[0].n, usable);
      ReadBucketRebuilt(net, r, tokens[1..], bucket, n + 1, size, usable, next);
    }
  }

  lemma {:induction false} ReadTableRebuilt(net: Network, s: State, tokens: seq<Token>, bucket: nat, buckets: int,
                                            usable: bool, next: int)
    requires Rebuilt(net, s) && InOrderTo(s, next, s.nNew) && (usable ==> buckets <= NEW_BUCKET_COUNT)
    ensures
      var read := ReadTable(net, s, tokens, bucket, buckets, usable);
      read.Done? ==> StillRebuilt(net, s, read.state, next)
    decreases buckets - bucket
  {
    hide Rebuilt, ReadBucket, InOrderTo;
    if bucket < buckets && tokens != [] && tokens[0].Num? {
      ReadBucketRebuilt(net, s, tokens[1..], bucket, 0, tokens[0].n, usable, next);
      match ReadBucket(net, s, tokens[1..], bucket, 0, tokens[0].n, usable)
      case Failed =>
      case Done(r, rest) => ReadTableRebuilt(net, r, rest, bucket + 1, buckets, usable, next);
    }
  }

  // The counts in the header of a stream are not negative.
  predicate CountsGiven(tokens: seq<Token>) {
    HeaderOk(tokens) && tokens[3].n >= 0 && tokens[4].n >= 0
  }

  lemma ReadAllRebuilt(net: Network, prior: State, tokens: seq<Token>)
    requires CountsGiven(tokens)
    ensures
      var read := ReadAll(net, prior, tokens);
      read.Done? ==>
        && Rebuilt(net, read.state) && read.state.nKey == tokens[2].key
        && read.state.nTried == |TriedIds(read.state)| && read.state.nNew == |NewIds(read.state)|
  {
    var buckets := BucketCount(tokens);
    var usable := Usable(tokens[0].n, buckets);
    var start := Started(prior, tokens);
    assert Rebuilt(net, start) && InOrderTo(start, 0, start.nNew);
    hide Rebuilt, InOrderTo, ReadNew, ReadTried, ReadTable;
    ReadNewRebuilt(net, start, tokens[6..], 0, start.nNew, usable);
    match ReadNew(net, start, tokens[6..], 0, start.nNew, usable)
    case Failed =>
    case Done(withNew, rest) =>
      var counted := withNew.(nIdCount := start.nNew);
      TalliesFree(net, withNew, counted);
      SameOrder(withNew, counted, start.nNew, start.nNew);
      ReadTriedRebuilt(net, counted, rest, 0, start.nTried, start.nNew);
      match ReadTried(net, counted, rest, 0, start.nTried)
      case Failed =>
      case Done(withTried, rest') =>
        ReadTableRebuilt(net, withTried, rest', 0, buckets, usable, withTried.nIdCount);
        match ReadTable(net, withTried, rest', 0, buckets, usable)
        case Failed =>
        case Done(r, _) => OrderCounts(r, withTried.nIdCount, start.nNew);
  }

  lemma SameOrder(s: State, r: State, next: int, split: int)
    requires InOrderTo(s, next, split) && r.mapInfo == s.mapInfo
    ensures InOrderTo(r, next, split)
  {
  }

  lemma OrderCounts(s: State, next: int, split: int)
    requires InOrderTo(s, next, split) && 0 <= split <= next
    ensures |NewIds(s)| == split && |TriedIds(s)| == next - split
  {
    forall i
      ensures i in NewIds(s) <==> 0 <= i < split
      ensures i in TriedIds(s) <==> split <= i < next
    {
    }
    IntervalSize(NewIds(s), 0, split);
    IntervalSize(TriedIds(s), split, next);
  }

  // ------------------------------------------------------------------------ pruning

  lemma DeleteRebuilt(net: Network, s: State, r: State, id: int)
    requires Rebuilt(net, s) && Prunable(s, id) && r == Delete(s, id)
    requires s.nTried == |TriedIds(s)| && s.nNew == |NewIds(s)|
    ensures Rebuilt(net, r) && r.nTried == |TriedIds(r)| && r.nNew == |NewIds(r)|
    ensures r.nKey == s.nKey && r.mapInfo.Keys == s.mapInfo.Keys - {id} && StatsKept(s, r, r.mapInfo.Keys)
    ensures r.nTried == s.nTried
  {
    DeleteShape(s, id);
    hide Delete, RandomLinked, TriedPlaced, NewPlaced, RefsCounted, TriedHeld, NeverTried;
    forall k | k in r.mapInfo
      ensures k in s.mapInfo && k != id && r.mapInfo[k] == s.mapInfo[k].(nRandomPos := r.mapInfo[k].nRandomPos)
    {
      assert k in r.mapInfo.Keys;
      assert Stats(r.mapInfo[k]) == Stats(s.mapInfo[k]);
    }
    DeleteCounts(s, r, id);
    hide TriedIds, NewIds;
    RemovedPlaced(net, s, r, id);
  }

  lemma RemovedPlaced(net: Network, s: State, r: State, id: int)
    requires TriedPlaced(net, s) && NewPlaced(net, s) && RefsCounted(s) && TriedHeld(net, s) && NeverTried(s)
    requires Prunable(s, id) && r.nKey == s.nKey && r.vvTried == s.vvTried && r.vvNew == s.vvNew
    requires r.mapInfo.Keys == s.mapInfo.Keys - {id}
    requires forall k | k in r.mapInfo ::
      k in s.mapInfo && r.mapInfo[k] == s.mapInfo[k].(nRandomPos := r.mapInfo[k].nRandomPos)
    ensures TriedPlaced(net, r) && NewPlaced(net, r) && RefsCounted(r) && TriedHeld(net, r) && NeverTried(r)
  {
    hide TriedSlot, NewSlotIn;
    forall slot | slot in r.vvTried
      ensures TriedPlacedAt(net, r, slot)
    {
      assert TriedPlacedAt(net, s, slot);
      assert s.vvTried[slot] in r.mapInfo.Keys;
    }
    forall slot | slot in r.vvNew
      ensures NewPlacedAt(net, r, slot)
    {
      assert NewPlacedAt(net, s, slot);
      assert s.vvNew[slot] == id ==> slot in Refs(s.vvNew, id);
      assert s.vvNew[slot] in r.mapInfo.Keys;
    }
    forall k | IsTriedId(r, k)
      ensures Holds(r.vvTried, TriedSlot(net, r.nKey, r.mapInfo[k].Service()), k)
    {
      assert IsTriedId(s, k);
    }
  }

  lemma DeleteCounts(s: State, r: State, id: int)
    requires id in s.mapInfo && !s.mapInfo[id].fInTried && r.mapInfo.Keys == s.mapInfo.Keys - {id}
    requires forall k | k in r.mapInfo :: k in s.mapInfo && r.mapInfo[k].fInTried == s.mapInfo[k].fInTried
    ensures |TriedIds(r)| == |TriedIds(s)| && |NewIds(r)| == |NewIds(s)| - 1
  {
    forall k
      ensures k in r.mapInfo <==> k in s.mapInfo && k != id
    {
      assert k in r.mapInfo.Keys <==> k in s.mapInfo.Keys - {id};
    }
    assert TriedIds(r) == TriedIds(s);
    assert NewIds(r) == NewIds(s) - {id};
  }

  lemma {:induction false} PruneRebuilt(net: Network, s: State, ids: seq<int>)
    requires Rebuilt(net, s) && s.nTried == |TriedIds(s)| && s.nNew == |NewIds(s)| && RandomLinked(s)
    ensures
      var r := Prune(s, ids);
      && Rebuilt(net, r) && r.nTried == s.nTried == |TriedIds(r)| && r.nNew == |NewIds(r)|
      && r.nKey == s.nKey && r.mapInfo.Keys <= s.mapInfo.Keys && StatsKept(s, r, r.mapInfo.Keys)
      && forall id | id in ids :: !Prunable(r, id)
    decreases |ids|
  {
    hide Rebuilt, RandomLinked, Delete, TriedIds, NewIds;
    if ids == [] {
      StatsReflexive(s);
    } else {
      var next := if Prunable(s, ids[0]) then Delete(s, ids[0]) else s;
      if Prunable(s, ids[0]) {
        DeleteRebuilt(net, s, next, ids[0]);
      }
      StatsReflexive(s);
      PruneRebuilt(net, next, ids[1..]);
      var r := Prune(next, ids[1..]);
      PrunedOnce(s, next, r, ids[0]);
      assert ids == [ids[0]] + ids[1..];
    }
  }

  lemma PrunedOnce(s: State, next: State, r: State, id: int)
    requires StatsKept(s, next, next.mapInfo.Keys) && StatsKept(next, r, r.mapInfo.Keys)
    requires next.mapInfo.Keys <= s.mapInfo.Keys && r.mapInfo.Keys <= next.mapInfo.Keys && !Prunable(next, id)
    ensures StatsKept(s, r, r.mapInfo.Keys) && !Prunable(r, id)
  {
    if id in r.mapInfo {
      assert id in r.mapInfo.Keys;
      assert Stats(r.mapInfo[id]) == Stats(next.mapInfo[id]);
    }
  }

  // ------------------------------------------------------------------------- Check_

  // What Check_ asks of one entry and a stream can get wrong: an address that mapAddr knows
  // under another id, and the time of the last success.
  ghost predicate EntrySays(s: State, id: int)
    requires id in s.mapInfo
  {
    var info := s.mapInfo[id];
    && (if info.Addr() in s.mapAddr then s.mapAddr[info.Addr()] else 0) == id
    && (if info.fInTried then info.nLastSuccess > 0 else info.nLastSuccess >= 0)
  }

  // After any stream with nonnegative counts, Check_ finds nothing exactly if the key is not null
  // and every entry has its own address and a sensible time: everything else holds whatever was
  // read.
  lemma StreamConsistentIff(net: Network, prior: State, tokens: seq<Token>) returns (r: State)
    requires CountsGiven(tokens) && Unserialize(net, prior, tokens).Some?
    ensures Unserialize(net, prior, tokens) == Some(r)
    ensures Rebuilt(net, r) && |r.vRandom| == r.nTried + r.nNew
    ensures Consistent(net, r) <==> tokens[2].key != 0 && forall id | id in r.mapInfo :: EntrySays(r, id)
  {
    var s := ReadAll(net, prior, tokens).state;
    ReadAllLinked(net, prior, tokens);
    ReadAllRebuilt(net, prior, tokens);
    hide ReadAll, Rebuilt, Consistent, EntrySays;
    var ids := Order(s.mapInfo.Keys);
    OrderComplete(s.mapInfo.Keys);
    PruneRebuilt(net, s, ids);
    r := Prune(s, ids);
    forall id
      ensures !Prunable(r, id)
    {
      if id in r.mapInfo {
        assert id in r.mapInfo.Keys;
        assert id in s.mapInfo.Keys;
      }
    }
    RebuiltConsistent(net, r);
  }

  lemma RebuiltConsistent(net: Network, r: State)
    requires Rebuilt(net, r) && r.nTried == |TriedIds(r)| && r.nNew == |NewIds(r)| && forall id :: !Prunable(r, id)
    ensures |r.vRandom| == r.nTried + r.nNew
    ensures Consistent(net, r) <==> r.nKey != 0 && forall id | id in r.mapInfo :: EntrySays(r, id)
  {
    RandomSize(r);
    hide TriedIds, NewIds, TriedSlot, NewSlotIn;
    forall id | id in r.mapInfo
      ensures EntryCode(r, id) == 0 <==> EntrySays(r, id)
    {
      EntryDecides(net, r, id);
    }
    forall id | IsNewId(r, id)
      ensures r.mapInfo[id].nRefCount == |Refs(r.vvNew, id)|
    {
    }
    hide EntryCode, EntrySays, RandomLinked, RefsCounted, Refs;
  }

  lemma EntryDecides(net: Network, r: State, id: int)
    requires Rebuilt(net, r) && id in r.mapInfo && !Prunable(r, id)
    ensures EntryCode(r, id) == 0 <==> EntrySays(r, id)
  {
    hide TriedSlot, NewSlotIn;
    if r.mapInfo[id].fInTried {
      forall slot | slot in r.vvNew
        ensures r.vvNew[slot] != id
      {
        assert NewPlacedAt(net, r, slot);
      }
      assert Refs(r.vvNew, id) == {};
    }
  }

  // ---------------------------------------------------------------- what can go wrong

  // A stream of an old version with two tried entries.
  function TwoTried(key: nat, a: Saved, b: Saved): seq<Token> {
    [Num(0), Num(32), Key(key), Num(0), Num(2), Num(0), Entry(a), Entry(b)]
  }

  lemma ReadTwoTried(net: Network, prior: State, key: nat, a: Saved, b: Saved) returns (r: State)
    requires TriedSlot(net, key, a.address.service) != TriedSlot(net, key, b.address.service)
    ensures CountsGiven(TwoTried(key, a, b)) && Unserialize(net, prior, TwoTried(key, a, b)) == Some(r)
    ensures 0 in r.mapInfo && 1 in r.mapInfo && r.mapInfo[0].fInTried && r.mapInfo[1].fInTried
    ensures Save(r.mapInfo[0]) == a && Save(r.mapInfo[1]) == b
    ensures r.mapAddr == map[a.address.service.addr := 0][b.address.service.addr := 1]
  {
    hide TriedSlot;
    var tokens := TwoTried(key, a, b);
    var start := Started(prior, tokens);
    var rest := tokens[6..];
    assert rest == [Entry(a), Entry(b)] && rest[1..] == [Entry(b)] && rest[1..][1..] == [];
    var one := LoadTried(net, start.(nIdCount := 0), a);
    var two := LoadTried(net, one, b);
    assert ReadTried(net, start.(nIdCount := 0), rest, 0, 2) == Done(two, []);
    assert ReadAll(net, prior, tokens) == Done(two, []);
    ReadAllLinked(net, prior, tokens);
    NothingPruned(two, Order(two.mapInfo.Keys));
    r := two;
  }

  // An address under two ids, and a tried entry without a success, are both reported.
  lemma StreamCanFail(net: Network, prior: State, key: nat, a: Saved, b: Saved) returns (r: State)
    requires TriedSlot(net, key, a.address.service) != TriedSlot(net, key, b.address.service)
    requires a.address.service.addr == b.address.service.addr || a.nLastSuccess == 0
    ensures Unserialize(net, prior, TwoTried(key, a, b)) == Some(r) && !Consistent(net, r)
  {
    r := ReadTwoTried(net, prior, key, a, b);
    hide Unserialize, TwoTried, TriedSlot;
    assert EntryCode(r, 0) != 0;
  }
}
