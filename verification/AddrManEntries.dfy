/**
 What a stream has to say for Check_ to find nothing after Unserialize of src/addrman.h has read
 it: a condition on the stream itself, sufficient for every stream and necessary where nothing
 that was read is lost.
 */
module AddrManEntries {
  import opened Options
  import opened AddrManState
  import opened AddrManSerial
  import opened AddrManCheck
  import opened AddrManStream

  function AddrAt(tokens: seq<Token>, i: nat): NetAddr
    requires i < |tokens| && tokens[i].Entry?
  {
    tokens[i].saved.address.service.addr
  }

  // First `news` new and then `tried` tried entries, with different addresses and sensible times
  // of their last success.
  ghost predicate SaysWell(tokens: seq<Token>, news: nat, tried: nat) {
    && news + tried <= |tokens|
    && (forall i | 0 <= i < news + tried :: tokens[i].Entry?)
    && (forall i, j | 0 <= i < j < news + tried :: AddrAt(tokens, i) != AddrAt(tokens, j))
    && (forall i | 0 <= i < news :: tokens[i].saved.nLastSuccess >= 0)
    && (forall i | news <= i < news + tried :: tokens[i].saved.nLastSuccess > 0)
  }

  // What a caller can check of a stream before it is read.
  ghost predicate StreamSaysWell(tokens: seq<Token>)
    requires CountsGiven(tokens)
  {
    tokens[2].key != 0 && SaysWell(tokens[6..], tokens[3].n, tokens[4].n)
  }

  // -------------------------------------------------------------------- sufficient

  // The entry is the one its address stands for, and its time is sensible.
  ghost predicate Owns(s: State, id: int)
    requires id in s.mapInfo
  {
    var info := s.mapInfo[id];
    && info.Addr() in s.mapAddr && s.mapAddr[info.Addr()] == id
    && (if info.fInTried then info.nLastSuccess > 0 else info.nLastSuccess >= 0)
  }

  ghost predicate AllOwn(s: State) {
    forall id | id in s.mapInfo :: Owns(s, id)
  }

  // None of the addresses to come is known yet.
  ghost predicate Unknown(s: State, tokens: seq<Token>, count: nat) {
    && count <= |tokens|
    && forall i | 0 <= i < count :: tokens[i].Entry? && AddrAt(tokens, i) !in s.mapAddr
  }

  lemma SaysWellNext(tokens: seq<Token>, news: nat, tried: nat)
    requires SaysWell(tokens, news, tried) && news + tried > 0
    ensures
      if news > 0 then SaysWell(tokens[1..], news - 1, tried)
      else SaysWell(tokens[1..], 0, tried - 1)
  {
    var rest := tokens[1..];
    assert forall i | 0 <= i < |rest| :: rest[i] == tokens[i + 1];
    forall i, j | 0 <= i < j < news + tried - 1
      ensures AddrAt(rest, i) != AddrAt(rest, j)
    {
      assert AddrAt(tokens, i + 1) != AddrAt(tokens, j + 1);
    }
  }

  lemma UnknownNext(s: State, r: State, tokens: seq<Token>, count: nat)
    requires Unknown(s, tokens, count) && count > 0
    requires r.mapAddr.Keys <= s.mapAddr.Keys + {AddrAt(tokens, 0)}
    requires forall j | 0 < j < count :: AddrAt(tokens, j) != AddrAt(tokens, 0)
    ensures Unknown(r, tokens[1..], count - 1)
  {
    var rest := tokens[1..];
    forall i | 0 <= i < count - 1
      ensures rest[i].Entry? && AddrAt(rest, i) !in r.mapAddr
    {
      assert rest[i] == tokens[i + 1];
      assert AddrAt(tokens, i + 1) !in s.mapAddr;
    }
  }

  // One more entry under an address of its own.
  lemma AppendOwns(s: State, r: State, id: int, info: Info)
    requires AllOwn(s) && info.Addr() !in s.mapAddr
    requires r.mapInfo == s.mapInfo[id := info] && r.mapAddr == s.mapAddr[info.Addr() := id]
    requires if info.fInTried then info.nLastSuccess > 0 else info.nLastSuccess >= 0
    ensures AllOwn(r)
  {
    forall k | k in r.mapInfo
      ensures Owns(r, k)
    {
      assert k != id ==> Owns(s, k);
    }
  }

  lemma LoadNewOwns(net: Network, s: State, saved: Saved, n: nat, usable: bool)
    requires AllOwn(s) && saved.address.service.addr !in s.mapAddr && saved.nLastSuccess >= 0
    ensures AllOwn(LoadNew(net, s, saved, n, usable))
    ensures LoadNew(net, s, saved, n, usable).mapAddr.Keys == s.mapAddr.Keys + {saved.address.service.addr}
  {
    hide NewSlot;
    var r := LoadNew(net, s, saved, n, usable);
    AppendOwns(s, r, n, r.mapInfo[n]);
  }

  lemma {:induction false} ReadNewOwns(net: Network, s: State, tokens: seq<Token>, n: nat, count: int, usable: bool,
                                       tried: nat)
    requires n <= count && AllOwn(s) && SaysWell(tokens, count - n, tried) && Unknown(s, tokens, count - n + tried)
    ensures
      var read := ReadNew(net, s, tokens, n, count, usable);
      read.Done? ==>
        AllOwn(read.state) && SaysWell(read.rest, 0, tried) && Unknown(read.state, read.rest, tried)
    decreases count - n
  {
    if n < count {
      var r := LoadNew(net, s, tokens[0].saved, n, usable);
      LoadNewOwns(net, s, tokens[0].saved, n, usable);
      hide LoadNew, AllOwn;
      UnknownNext(s, r, tokens, count - n + tried);
      SaysWellNext(tokens, count - n, tried);
      hide Unknown, SaysWell;
      ReadNewOwns(net, r, tokens[1..], n + 1, count, usable, tried);
    }
  }

  lemma {:induction false} ReadTriedOwns(net: Network, s: State, tokens: seq<Token>, n: nat, count: int)
    requires n <= count && AllOwn(s) && SaysWell(tokens, 0, count - n) && Unknown(s, tokens, count - n)
    ensures
      var read := ReadTried(net, s, tokens, n, count);
      read.Done? ==> AllOwn(read.state)
    decreases count - n
  {
    if n < count {
      var r := LoadTried(net, s, tokens[0].saved);
      hide TriedSlot;
      LoadTriedOwns(net, s, tokens[0].saved);
      UnknownNext(s, r, tokens, count - n);
      SaysWellNext(tokens, 0, count - n);
      hide LoadTried, AllOwn, Unknown, SaysWell;
      ReadTriedOwns(net, r, tokens[1..], n + 1, count);
    }
  }

  lemma LoadTriedOwns(net: Network, s: State, saved: Saved)
    requires AllOwn(s) && saved.address.service.addr !in s.mapAddr && saved.nLastSuccess > 0
    ensures AllOwn(LoadTried(net, s, saved))
  {
    hide TriedSlot;
    var r := LoadTried(net, s, saved);
    var info := Load(saved, |s.vRandom|).(fInTried := true);
    if TriedSlot(net, s.nKey, info.Service()) in s.vvTried {
      assert forall id | id in r.mapInfo :: Owns(s, id);
    } else {
      AppendOwns(s, r, s.nIdCount, info);
    }
  }

  lemma LoadRefOwns(net: Network, s: State, bucket: nat, index: int, usable: bool)
    requires AllOwn(s)
    ensures AllOwn(LoadRef(net, s, bucket, index, usable))
  {
    hide NewSlotIn;
    var r := LoadRef(net, s, bucket, index, usable);
    forall id | id in r.mapInfo
      ensures Owns(r, id)
    {
      assert Owns(s, id);
    }
  }

  lemma {:induction false} ReadBucketOwns(net: Network, s: State, tokens: seq<Token>, bucket: nat, n: nat, size: int,
                                          usable: bool)
    requires AllOwn(s)
    ensures
      var read := ReadBucket(net, s, tokens, bucket, n, size, usable);
      read.Done? ==> AllOwn(read.state)
    decreases size - n
  {
    hide AllOwn, LoadRef;
    if n < size && tokens != [] && tokens[0].Num? {
      LoadRefOwns(net, s, bucket, tokens[0].n, usable);
      ReadBucketOwns(net, LoadRef(net, s, bucket, tokens[0].n, usable), tokens[1..], bucket, n + 1, size, usable);
    }
  }

  lemma {:induction false} ReadTableOwns(net: Network, s: State, tokens: seq<Token>, bucket: nat, buckets: int,
                                         usable: bool)
    requires AllOwn(s)
    ensures
      var read := ReadTable(net, s, tokens, bucket, buckets, usable);
      read.Done? ==> AllOwn(read.state)
    decreases buckets - bucket
  {
    hide AllOwn, ReadBucket;
    if bucket < buckets && tokens != [] && tokens[0].Num? {
      ReadBucketOwns(net, s, tokens[1..], bucket, 0, tokens[0].n, usable);
      match ReadBucket(net, s, tokens[1..], bucket, 0, tokens[0].n, usable)
      case Failed =>
      case Done(next, rest) => ReadTableOwns(net, next, rest, bucket + 1, buckets, usable);
    }
  }

  // Deleting an entry takes away its own address only.
  lemma DeleteOwns(s: State, id: int)
    requires AllOwn(s) && RandomLinked(s) && Prunable(s, id)
    ensures AllOwn(Delete(s, id))
  {
    DeleteShape(s, id);
    hide Delete, RandomLinked;
    var r := Delete(s, id);
    forall k | k in r.mapInfo
      ensures Owns(r, k)
    {
      assert k in r.mapInfo.Keys;
      assert Stats(r.mapInfo[k]) == Stats(s.mapInfo[k]);
      assert Owns(s, k) && Owns(s, id);
    }
  }

  lemma {:induction false} PruneOwns(s: State, ids: seq<int>)
    requires AllOwn(s) && RandomLinked(s)
    ensures AllOwn(Prune(s, ids))
    decreases |ids|
  {
    hide AllOwn, RandomLinked, Delete;
    if ids != [] {
      if Prunable(s, ids[0]) {
        DeleteOwns(s, ids[0]);
        PruneOwns(Delete(s, ids[0]), ids[1..]);
      } else {
        PruneOwns(s, ids[1..]);
      }
    }
  }

  lemma ReadAllOwns(net: Network, prior: State, tokens: seq<Token>)
    requires CountsGiven(tokens) && StreamSaysWell(tokens)
    ensures
      var read := ReadAll(net, prior, tokens);
      read.Done? ==> AllOwn(read.state)
  {
    var buckets := BucketCount(tokens);
    var usable := Usable(tokens[0].n, buckets);
    var start := Started(prior, tokens);
    hide ReadNew, ReadTried, ReadTable;
    ReadNewOwns(net, start, tokens[6..], 0, start.nNew, usable, start.nTried);
    match ReadNew(net, start, tokens[6..], 0, start.nNew, usable)
    case Failed =>
    case Done(withNew, rest) =>
      var counted := withNew.(nIdCount := start.nNew);
      SameOwners(withNew, counted, rest, start.nTried);
      ReadTriedOwns(net, counted, rest, 0, start.nTried);
      match ReadTried(net, counted, rest, 0, start.nTried)
      case Failed =>
      case Done(withTried, rest') => ReadTableOwns(net, withTried, rest', 0, buckets, usable);
  }

  lemma SameOwners(s: State, r: State, tokens: seq<Token>, count: nat)
    requires AllOwn(s) && Unknown(s, tokens, count) && r == s.(nIdCount := r.nIdCount)
    ensures AllOwn(r) && Unknown(r, tokens, count)
  {
    forall id | id in r.mapInfo
      ensures Owns(r, id)
    {
      assert Owns(s, id);
    }
  }

  // --------------------------------------------------------------------- necessary

  // The entries with ids below `next` are those of the stream, in order.
  ghost predicate Copied(s: State, entries: seq<Token>, next: int, split: int) {
    && InOrderTo(s, next, split) && 0 <= next <= |entries|
    && forall id | 0 <= id < next :: entries[id] == Entry(Save(s.mapInfo[id]))
  }

  lemma {:induction false} ReadNewCopies(net: Network, s: State, entries: seq<Token>, n: nat, count: int, usable: bool)
    requires n <= count && Copied(s, entries, n, count)
    ensures
      var read := ReadNew(net, s, entries[n..], n, count, usable);
      read.Done? ==> Copied(read.state, entries, count, count) && read.rest == entries[count..]
    decreases count - n
  {
    var tokens := entries[n..];
    if n < count && tokens != [] && tokens[0].Entry? {
      hide NewSlot;
      var r := LoadNew(net, s, tokens[0].saved, n, usable);
      assert Copied(r, entries, n + 1, count);
      assert tokens[1..] == entries[n + 1..];
      hide LoadNew, Copied;
      ReadNewCopies(net, r, entries, n + 1, count, usable);
    }
  }

  lemma {:induction false} ReadTriedCopies(net: Network, s: State, entries: seq<Token>, n: nat, count: int, split: int)
    requires n <= count && 0 <= split && s.nIdCount == split + n && Copied(s, entries, split + n, split)
    ensures
      var read := ReadTried(net, s, entries[split + n..], n, count);
      read.Done? && read.state.nTried == s.nTried ==> Copied(read.state, entries, split + count, split)
    decreases count - n
  {
    var tokens := entries[split + n..];
    if n < count && tokens != [] && tokens[0].Entry? {
      var r := LoadTried(net, s, tokens[0].saved);
      LoadTriedCopies(net, s, entries, split + n, split);
      hide LoadTried, Copied;
      assert tokens[1..] == entries[split + n + 1..];
      ReadTriedLoses(net, r, tokens[1..], n + 1, count);
      if r.nTried == s.nTried {
        ReadTriedCopies(net, r, entries, n + 1, count, split);
      }
    }
  }

  lemma LoadTriedCopies(net: Network, s: State, entries: seq<Token>, next: int, split: int)
    requires 0 <= split <= next < |entries| && entries[next].Entry? && s.nIdCount == next && Copied(s, entries, next, split)
    ensures
      var r := LoadTried(net, s, entries[next].saved);
      if r.nTried == s.nTried then r.nIdCount == next + 1 && Copied(r, entries, next + 1, split) else r.nTried < s.nTried
  {
    hide TriedSlot;
  }

  // The count of tried entries never rises while they are read.
  lemma {:induction false} ReadTriedLoses(net: Network, s: State, tokens: seq<Token>, n: nat, count: int)
    ensures
      var read := ReadTried(net, s, tokens, n, count);
      read.Done? ==> read.state.nTried <= s.nTried
    decreases count - n
  {
    hide TriedSlot;
    if n < count && tokens != [] && tokens[0].Entry? {
      ReadTriedLoses(net, LoadTried(net, s, tokens[0].saved), tokens[1..], n + 1, count);
    }
  }

  lemma LoadRefCopies(net: Network, s: State, bucket: nat, index: int, usable: bool, entries: seq<Token>, next: int,
                      split: int)
    requires Copied(s, entries, next, split)
    ensures
      var r := LoadRef(net, s, bucket, index, usable);
      Copied(r, entries, next, split) && r.nTried == s.nTried
  {
    hide NewSlotIn;
  }

  lemma {:induction false} ReadBucketCopies(net: Network, s: State, tokens: seq<Token>, bucket: nat, n: nat, size: int,
                                            usable: bool, entries: seq<Token>, next: int, split: int)
    requires Copied(s, entries, next, split)
    ensures
      var read := ReadBucket(net, s, tokens, bucket, n, size, usable);
      read.Done? ==> Copied(read.state, entries, next, split)
    decreases size - n
  {
    hide Copied, LoadRef;
    if n < size && tokens != [] && tokens[0].Num? {
      var r := LoadRef(net, s, bucket, tokens[0].n, usable);
      LoadRefCopies(net, s, bucket, tokens[0].n, usable, entries, next, split);
      ReadBucketCopies(net, r, tokens[1..], bucket, n + 1, size, usable, entries, next, split);
    }
  }

  lemma {:induction false} ReadTableCopies(net: Network, s: State, tokens: seq<Token>, bucket: nat, buckets: int,
                                           usable: bool, entries: seq<Token>, next: int, split: int)
    requires Copied(s, entries, next, split)
    ensures
      var read := ReadTable(net, s, tokens, bucket, buckets, usable);
      read.Done? ==> Copied(read.state, entries, next, split)
    decreases buckets - bucket
  {
    hide Copied, ReadBucket;
    if bucket < buckets && tokens != [] && tokens[0].Num? {
      ReadBucketCopies(net, s, tokens[1..], bucket, 0, tokens[0].n, usable, entries, next, split);
      match ReadBucket(net, s, tokens[1..], bucket, 0, tokens[0].n, usable)
      case Failed =>
      case Done(r, rest) => ReadTableCopies(net, r, rest, bucket + 1, buckets, usable, entries, next, split);
    }
  }

  // The table leaves the counts alone.
  lemma {:induction false} ReadBucketTally(net: Network, s: State, tokens: seq<Token>, bucket: nat, n: nat, size: int,
                                           usable: bool)
    ensures
      var read := ReadBucket(net, s, tokens, bucket, n, size, usable);
      read.Done? ==> read.state.nTried == s.nTried && read.state.nNew == s.nNew
    decreases size - n
  {
    hide NewSlotIn;
    if n < size && tokens != [] && tokens[0].Num? {
      ReadBucketTally(net, LoadRef(net, s, bucket, tokens[0].n, usable), tokens[1..], bucket, n + 1, size, usable);
    }
  }

  lemma {:induction false} ReadTableTally(net: Network, s: State, tokens: seq<Token>, bucket: nat, buckets: int,
                                          usable: bool)
    ensures
      var read := ReadTable(net, s, tokens, bucket, buckets, usable);
      read.Done? ==> read.state.nTried == s.nTried && read.state.nNew == s.nNew
    decreases buckets - bucket
  {
    hide ReadBucket;
    if bucket < buckets && tokens != [] && tokens[0].Num? {
      ReadBucketTally(net, s, tokens[1..], bucket, 0, tokens[0].n, usable);
      match ReadBucket(net, s, tokens[1..], bucket, 0, tokens[0].n, usable)
      case Failed =>
      case Done(r, rest) => ReadTableTally(net, r, rest, bucket + 1, buckets, usable);
    }
  }

  lemma {:induction false} ReadNewTally(net: Network, s: State, tokens: seq<Token>, n: nat, count: int, usable: bool)
    ensures
      var read := ReadNew(net, s, tokens, n, count, usable);
      read.Done? ==> read.state.nTried == s.nTried && read.state.nNew == s.nNew
    decreases count - n
  {
    hide NewSlot;
    if n < count && tokens != [] && tokens[0].Entry? {
      ReadNewTally(net, LoadNew(net, s, tokens[0].saved, n, usable), tokens[1..], n + 1, count, usable);
    }
  }

  lemma ReadBodyCopies(net: Network, start: State, entries: seq<Token>, buckets: int, usable: bool)
    requires start.nNew >= 0 && start.nTried >= 0 && Copied(start, entries, 0, start.nNew)
    ensures
      var read := ReadBody(net, start, entries, buckets, usable);
      read.Done? && read.state.nTried == start.nTried ==>
        Copied(read.state, entries, start.nNew + start.nTried, start.nNew)
  {
    hide ReadNew, ReadTried, ReadTable, Copied;
    assert entries[0..] == entries;
    ReadNewCopies(net, start, entries, 0, start.nNew, usable);
    ReadNewTally(net, start, entries, 0, start.nNew, usable);
    match ReadNew(net, start, entries, 0, start.nNew, usable)
    case Failed =>
    case Done(withNew, rest) =>
      var counted := withNew.(nIdCount := start.nNew);
      SameCopies(withNew, counted, entries, start.nNew, start.nNew);
      ReadTriedCopies(net, counted, entries, 0, start.nTried, start.nNew);
      match ReadTried(net, counted, rest, 0, start.nTried)
      case Failed =>
      case Done(withTried, rest') =>
        ReadTableTally(net, withTried, rest', 0, buckets, usable);
        if withTried.nTried == start.nTried {
          ReadTableCopies(net, withTried, rest', 0, buckets, usable, entries, start.nNew + start.nTried, start.nNew);
        }
  }

  lemma ReadAllCopies(net: Network, prior: State, tokens: seq<Token>)
    requires CountsGiven(tokens)
    ensures
      var read := ReadAll(net, prior, tokens);
      read.Done? && read.state.nTried == tokens[4].n ==>
        Copied(read.state, tokens[6..], tokens[3].n + tokens[4].n, tokens[3].n)
  {
    var buckets := BucketCount(tokens);
    var usable := Usable(tokens[0].n, buckets);
    hide ReadBody;
    ReadBodyCopies(net, Started(prior, tokens), tokens[6..], buckets, usable);
  }

  lemma SameCopies(s: State, r: State, entries: seq<Token>, next: int, split: int)
    requires Copied(s, entries, next, split) && r.mapInfo == s.mapInfo
    ensures Copied(r, entries, next, split)
  {
  }

  lemma SameSize(a: set<int>, b: set<int>)
    requires a <= b && |a| == |b|
    ensures a == b
  {
    assert |b - a| == |b| - |a|;
  }

  // If pruning leaves the counts as they were it leaves every entry.
  lemma NothingPrunedAway(s: State, r: State, entries: seq<Token>, next: int, split: int)
    requires Copied(s, entries, next, split) && 0 <= split <= next
    requires r.mapInfo.Keys <= s.mapInfo.Keys && StatsKept(s, r, r.mapInfo.Keys)
    requires |NewIds(r)| == split && |TriedIds(r)| == next - split
    ensures Copied(r, entries, next, split)
  {
    OrderCounts(s, next, split);
    forall id | id in r.mapInfo
      ensures id in s.mapInfo && r.mapInfo[id] == s.mapInfo[id].(nRandomPos := r.mapInfo[id].nRandomPos)
    {
      assert id in r.mapInfo.Keys;
      assert Stats(r.mapInfo[id]) == Stats(s.mapInfo[id]);
    }
    SameSize(NewIds(r), NewIds(s));
    SameSize(TriedIds(r), TriedIds(s));
    forall id
      ensures id in r.mapInfo <==> id in s.mapInfo
    {
      assert id in s.mapInfo <==> id in NewIds(s) + TriedIds(s);
      assert id in r.mapInfo <==> id in NewIds(r) + TriedIds(r);
    }
  }

  // Entries that all check out are well said.
  lemma CopiesSayWell(r: State, entries: seq<Token>, news: nat, tried: nat)
    requires Copied(r, entries, news + tried, news) && forall id | id in r.mapInfo :: EntrySays(r, id)
    ensures SaysWell(entries, news, tried)
  {
    forall i | 0 <= i < news + tried
      ensures entries[i].Entry? && EntrySays(r, i) && AddrAt(entries, i) == r.mapInfo[i].Addr()
      ensures entries[i].saved.nLastSuccess == r.mapInfo[i].nLastSuccess
    {
      assert entries[i] == Entry(Save(r.mapInfo[i]));
    }
  }

  // --------------------------------------------------------------------------- both

  // If a stream says well, Check_ finds nothing after reading it. Where no entry is lost to a
  // collision, that is, where the counts are those of the stream, it finds nothing only then.
  lemma WellSaidIsConsistent(net: Network, prior: State, tokens: seq<Token>) returns (r: State)
    requires CountsGiven(tokens) && Unserialize(net, prior, tokens).Some?
    ensures Unserialize(net, prior, tokens) == Some(r)
    ensures StreamSaysWell(tokens) ==> Consistent(net, r)
    ensures r.nNew == tokens[3].n && r.nTried == tokens[4].n ==> (Consistent(net, r) <==> StreamSaysWell(tokens))
  {
    hide Consistent, Rebuilt, SaysWell, EntrySays, ReadAll;
    r := StreamConsistentIff(net, prior, tokens);
    if StreamSaysWell(tokens) {
      PrunedOwns(net, prior, tokens, r);
    }
    if r.nNew == tokens[3].n && r.nTried == tokens[4].n {
      if Consistent(net, r) {
        PrunedCopies(net, prior, tokens, r);
        CopiesSayWell(r, tokens[6..], tokens[3].n, tokens[4].n);
      }
    }
  }

  lemma PrunedOwns(net: Network, prior: State, tokens: seq<Token>, r: State)
    requires CountsGiven(tokens) && StreamSaysWell(tokens) && Unserialize(net, prior, tokens) == Some(r)
    ensures forall id | id in r.mapInfo :: EntrySays(r, id)
  {
    hide ReadAll, StreamSaysWell, RandomLinked;
    ReadAllLinked(net, prior, tokens);
    ReadAllOwns(net, prior, tokens);
    var s := ReadAll(net, prior, tokens).state;
    PruneOwns(s, Order(s.mapInfo.Keys));
    assert forall id | id in r.mapInfo :: Owns(r, id);
  }

  lemma PrunedCopies(net: Network, prior: State, tokens: seq<Token>, r: State)
    requires CountsGiven(tokens) && Unserialize(net, prior, tokens) == Some(r)
    requires r.nNew == tokens[3].n && r.nTried == tokens[4].n
    ensures Copied(r, tokens[6..], tokens[3].n + tokens[4].n, tokens[3].n)
  {
    hide ReadAll, Rebuilt, RandomLinked, TriedIds, NewIds, Copied;
    ReadAllLinked(net, prior, tokens);
    ReadAllRebuilt(net, prior, tokens);
    ReadAllCopies(net, prior, tokens);
    var s := ReadAll(net, prior, tokens).state;
    PruneRebuilt(net, s, Order(s.mapInfo.Keys));
    NothingPrunedAway(s, r, tokens[6..], tokens[3].n + tokens[4].n, tokens[3].n);
  }
}
