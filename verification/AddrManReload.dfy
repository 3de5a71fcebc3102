/**
 What Unserialize of src/addrman.h keeps of a stream, whoever wrote it: which entries get a place, and
 which of the listed references to the new table are taken up.
 */
module AddrManReload {
  import opened Options
  import opened AddrManState
  import opened AddrManSteps
  import opened AddrManRun
  import opened AddrManSerial
  import opened AddrManStream

  // ---------------------------------------------------------------------- the tokens

  // The tokens are these entries, from one on.
  ghost predicate Spells(tokens: seq<Token>, e: seq<Saved>, from: nat, n: nat) {
    && n <= |tokens| && from + n <= |e|
    && forall k | 0 <= k < n :: tokens[k] == Entry(e[from + k])
  }

  lemma SpellsNext(tokens: seq<Token>, e: seq<Saved>, from: nat, n: nat)
    requires n > 0 && Spells(tokens, e, from, n)
    ensures Spells(tokens[1..], e, from + 1, n - 1)
  {
    forall k | 0 <= k < n - 1
      ensures tokens[1..][k] == Entry(e[from + 1 + k])
    {
      assert tokens[1..][k] == tokens[k + 1];
    }
  }

  // The first n tokens are entries.
  predicate Begins(tokens: seq<Token>, n: nat) {
    n <= |tokens| && forall i | 0 <= i < n :: tokens[i].Entry?
  }

  lemma {:induction false} ReadNewTakes(net: Network, s: State, tokens: seq<Token>, n: nat, count: nat, usable: bool)
    requires n <= count && ReadNew(net, s, tokens, n, count, usable).Done?
    ensures Begins(tokens, count - n) && ReadNew(net, s, tokens, n, count, usable).rest == tokens[count - n..]
    decreases count - n
  {
    hide LoadNew;
    if n < count {
      ReadNewTakes(net, LoadNew(net, s, tokens[0].saved, n, usable), tokens[1..], n + 1, count, usable);
      assert forall i | 1 <= i < count - n :: tokens[i] == tokens[1..][i - 1];
    }
  }

  lemma {:induction false} ReadTriedTakes(net: Network, s: State, tokens: seq<Token>, n: nat, count: nat)
    requires n <= count && ReadTried(net, s, tokens, n, count).Done?
    ensures Begins(tokens, count - n) && ReadTried(net, s, tokens, n, count).rest == tokens[count - n..]
    decreases count - n
  {
    hide LoadTried;
    if n < count {
      ReadTriedTakes(net, LoadTried(net, s, tokens[0].saved), tokens[1..], n + 1, count);
      assert forall i | 1 <= i < count - n :: tokens[i] == tokens[1..][i - 1];
    }
  }

  // ----------------------------------------------------------------------- new entries

  // The slot an entry gets by its own source.
  function OwnSlot(net: Network, key: nat, e: Saved): Slot {
    NewSlot(net, key, e.address.service, e.source)
  }

  // No entry before it has the same slot.
  ghost predicate FirstNew(net: Network, key: nat, e: seq<Saved>, i: nat)
    requires i < |e|
  {
    forall j | 0 <= j < i :: OwnSlot(net, key, e[j]) != OwnSlot(net, key, e[i])
  }

  ghost predicate ReadAs(infos: map<int, Info>, e: seq<Saved>, i: nat)
    requires i < |e|
  {
    i in infos && Save(infos[i]) == e[i] && !infos[i].fInTried
  }

  // Of the first n entries the first of each slot holds it, and nobody else does.
  ghost predicate Occupied(net: Network, key: nat, table: Table, e: seq<Saved>, n: nat)
    requires n <= |e|
  {
    && (forall i | 0 <= i < n :: OwnSlot(net, key, e[i]) in table)
    && (forall slot | slot in table ::
          0 <= table[slot] < n && OwnSlot(net, key, e[table[slot]]) == slot && FirstNew(net, key, e, table[slot]))
  }

  // Without a usable table that is how the entries are filed.
  ghost predicate NewFiled(net: Network, s: State, e: seq<Saved>, n: nat)
    requires n <= |e|
  {
    && Occupied(net, s.nKey, s.vvNew, e, n)
    && (forall i | 0 <= i < n :: FiledAt(net, s.nKey, s.mapInfo, e, i))
  }

  // With a usable table nobody holds a slot yet.
  ghost predicate NewListed(s: State, e: seq<Saved>, n: nat)
    requires n <= |e|
  {
    && s.vvNew == map[]
    && (forall i | 0 <= i < n :: ReadAs(s.mapInfo, e, i) && s.mapInfo[i].nRefCount == 0)
  }

  ghost predicate NewRead(net: Network, s: State, e: seq<Saved>, n: nat, usable: bool)
    requires n <= |e|
  {
    if usable then NewListed(s, e, n) else NewFiled(net, s, e, n)
  }

  lemma TakenIff(net: Network, key: nat, table: Table, e: seq<Saved>, n: nat)
    requires n < |e| && Occupied(net, key, table, e, n)
    ensures OwnSlot(net, key, e[n]) in table <==> !FirstNew(net, key, e, n)
  {
    hide OwnSlot;
  }

  lemma OccupiedNext(net: Network, key: nat, table: Table, next: Table, e: seq<Saved>, n: nat)
    requires n < |e| && Occupied(net, key, table, e, n)
    requires
      var slot := OwnSlot(net, key, e[n]);
      next == if slot in table then table else table[slot := n]
    ensures Occupied(net, key, next, e, n + 1)
  {
    TakenIff(net, key, table, e, n);
    hide OwnSlot, FirstNew;
  }

  // The entry under an id is the one read for it.
  ghost predicate FiledAt(net: Network, key: nat, infos: map<int, Info>, e: seq<Saved>, i: nat)
    requires i < |e|
  {
    ReadAs(infos, e, i) && infos[i].nRefCount == if FirstNew(net, key, e, i) then 1 else 0
  }

  lemma FiledStep(net: Network, key: nat, infos: map<int, Info>, next: map<int, Info>, e: seq<Saved>, n: nat, info: Info)
    requires next == infos[n := info]
    requires n < |e| && forall i | 0 <= i < n :: FiledAt(net, key, infos, e, i)
    requires Save(info) == e[n] && !info.fInTried && info.nRefCount == if FirstNew(net, key, e, n) then 1 else 0
    ensures forall i | 0 <= i < n + 1 :: FiledAt(net, key, next, e, i)
  {
    hide FirstNew, Save;
    forall i | 0 <= i < n
      ensures FiledAt(net, key, next, e, i)
    {
      assert FiledAt(net, key, infos, e, i);
    }
  }

  // One more entry under the id n; it takes its slot if that is free.
  lemma NextFiled(net: Network, s: State, r: State, e: seq<Saved>, n: nat, info: Info)
    requires n < |e| && NewFiled(net, s, e, n) && r.nKey == s.nKey
    requires r.mapInfo == s.mapInfo[n := info] && Save(info) == e[n] && !info.fInTried
    requires
      var slot := OwnSlot(net, s.nKey, e[n]);
      if slot in s.vvNew then r.vvNew == s.vvNew && info.nRefCount == 0
      else r.vvNew == s.vvNew[slot := n] && info.nRefCount == 1
    ensures NewFiled(net, r, e, n + 1)
  {
    hide OwnSlot, FirstNew, Save, Occupied, FiledAt;
    TakenIff(net, s.nKey, s.vvNew, e, n);
    OccupiedNext(net, s.nKey, s.vvNew, r.vvNew, e, n);
    FiledStep(net, s.nKey, s.mapInfo, r.mapInfo, e, n, info);
  }

  lemma LoadNewFiles(net: Network, s: State, e: seq<Saved>, n: nat, usable: bool)
    requires n < |e| && NewRead(net, s, e, n, usable)
    ensures NewRead(net, LoadNew(net, s, e[n], n, usable), e, n + 1, usable)
  {
    hide NewSlot, NewFiled;
    var r := LoadNew(net, s, e[n], n, usable);
    if !usable {
      NextFiled(net, s, r, e, n, r.mapInfo[n]);
    }
  }

  lemma {:induction false} ReadNewFiles(net: Network, s: State, tokens: seq<Token>, n: nat, count: nat, usable: bool,
                                        e: seq<Saved>)
    requires n <= count <= |e| && NewRead(net, s, e, n, usable) && Spells(tokens, e, n, count - n)
    ensures
      var read := ReadNew(net, s, tokens, n, count, usable);
      read.Done? && NewRead(net, read.state, e, count, usable) && read.state.nKey == s.nKey && read.state.vvTried == s.vvTried
    decreases count - n
  {
    hide NewRead, LoadNew;
    if n < count {
      LoadNewFiles(net, s, e, n, usable);
      LoadNewLeaves(net, s, e[n], n, usable);
      SpellsNext(tokens, e, n, count - n);
      ReadNewFiles(net, LoadNew(net, s, e[n], n, usable), tokens[1..], n + 1, count, usable, e);
    }
  }

  lemma LoadNewLeaves(net: Network, s: State, saved: Saved, n: nat, usable: bool)
    ensures
      var r := LoadNew(net, s, saved, n, usable);
      r.nKey == s.nKey && r.vvTried == s.vvTried && r.nNew == s.nNew && r.nTried == s.nTried
  {
  }

  // --------------------------------------------------------------------- tried entries

  function OwnTried(net: Network, key: nat, e: Saved): Slot {
    TriedSlot(net, key, e.address.service)
  }

  // Of the entries from `split` on none before it has the same slot.
  ghost predicate FirstTried(net: Network, key: nat, e: seq<Saved>, split: nat, i: nat)
    requires split <= i < |e|
  {
    forall j | split <= j < i :: OwnTried(net, key, e[j]) != OwnTried(net, key, e[i])
  }

  ghost predicate HeldBy(s: State, slot: Slot, e: Saved) {
    && slot in s.vvTried && s.vvTried[slot] in s.mapInfo
    && s.mapInfo[s.vvTried[slot]].fInTried && Save(s.mapInfo[s.vvTried[slot]]) == e
  }

  // Of the entries from `split` to n the first of each slot holds it, and nobody else does.
  ghost predicate TriedRead(net: Network, s: State, e: seq<Saved>, split: nat, n: nat)
    requires split <= n <= |e|
  {
    && (forall id | id in s.mapInfo :: id < s.nIdCount)
    && (forall i | split <= i < n && FirstTried(net, s.nKey, e, split, i) :: HeldBy(s, OwnTried(net, s.nKey, e[i]), e[i]))
    && s.vvTried.Keys == OwnTrieds(net, s.nKey, e, split, n)
  }

  ghost function OwnTrieds(net: Network, key: nat, e: seq<Saved>, split: nat, n: nat): set<Slot>
    requires split <= n <= |e|
  {
    set i | split <= i < n :: OwnTried(net, key, e[i])
  }

  lemma TriedTakenIff(net: Network, s: State, e: seq<Saved>, split: nat, n: nat)
    requires split <= n < |e| && TriedRead(net, s, e, split, n)
    ensures OwnTried(net, s.nKey, e[n]) in s.vvTried <==> !FirstTried(net, s.nKey, e, split, n)
  {
    hide OwnTried, HeldBy;
  }

  // Entries read before keep their place.
  lemma HeldStill(s: State, r: State, slot: Slot, e: Saved, own: Slot, info: Info)
    requires HeldBy(s, slot, e) && own !in s.vvTried && s.nIdCount !in s.mapInfo
    requires r.mapInfo == s.mapInfo[s.nIdCount := info] && r.vvTried == s.vvTried[own := s.nIdCount]
    ensures HeldBy(r, slot, e)
  {
  }

  lemma TriedStep(net: Network, s: State, r: State, e: seq<Saved>, split: nat, n: nat, info: Info)
    requires split <= n < |e| && TriedRead(net, s, e, split, n) && r.nKey == s.nKey
    requires OwnTried(net, s.nKey, e[n]) !in s.vvTried
    requires r.mapInfo == s.mapInfo[s.nIdCount := info] && r.nIdCount == s.nIdCount + 1
    requires r.vvTried == s.vvTried[OwnTried(net, s.nKey, e[n]) := s.nIdCount] && info.fInTried && Save(info) == e[n]
    ensures TriedRead(net, r, e, split, n + 1)
  {
    hide OwnTried, FirstTried;
    var own := OwnTried(net, s.nKey, e[n]);
    forall i | split <= i < n + 1 && FirstTried(net, r.nKey, e, split, i)
      ensures HeldBy(r, OwnTried(net, r.nKey, e[i]), e[i])
    {
      if i < n {
        HeldStill(s, r, OwnTried(net, s.nKey, e[i]), e[i], own, info);
      }
    }
    hide HeldBy, Save;
    TriedsGrow(net, s.nKey, e, split, n);
  }

  lemma TriedsGrow(net: Network, key: nat, e: seq<Saved>, split: nat, n: nat)
    requires split <= n < |e|
    ensures OwnTrieds(net, key, e, split, n + 1) == OwnTrieds(net, key, e, split, n) + {OwnTried(net, key, e[n])}
  {
    hide OwnTried;
  }

  lemma TriedSkipped(net: Network, s: State, e: seq<Saved>, split: nat, n: nat)
    requires split <= n < |e| && TriedRead(net, s, e, split, n) && OwnTried(net, s.nKey, e[n]) in s.vvTried
    ensures TriedRead(net, s, e, split, n + 1)
  {
    hide OwnTried, FirstTried, HeldBy, OwnTrieds;
    TriedTakenIff(net, s, e, split, n);
    TriedsGrow(net, s.nKey, e, split, n);
    assert OwnTrieds(net, s.nKey, e, split, n + 1) == s.vvTried.Keys;
  }

  // The number of tried entries does not matter.
  lemma TriedCounted(net: Network, s: State, r: State, e: seq<Saved>, split: nat, n: nat)
    requires split <= n <= |e| && TriedRead(net, s, e, split, n) && r == s.(nTried := r.nTried)
    ensures TriedRead(net, r, e, split, n)
  {
    hide OwnTried, FirstTried, OwnTrieds, Save;
    forall i | split <= i < n && FirstTried(net, s.nKey, e, split, i)
      ensures HeldBy(r, OwnTried(net, s.nKey, e[i]), e[i])
    {
      assert HeldBy(s, OwnTried(net, s.nKey, e[i]), e[i]);
    }
  }

  lemma LoadTriedFiles(net: Network, s: State, e: seq<Saved>, split: nat, n: nat)
    requires split <= n < |e| && TriedRead(net, s, e, split, n)
    ensures
      var r := LoadTried(net, s, e[n]);
      && TriedRead(net, r, e, split, n + 1) && r.nKey == s.nKey && r.vvNew == s.vvNew && s.nIdCount <= r.nIdCount
      && r.nNew == s.nNew
      && forall id | id in s.mapInfo && id < s.nIdCount :: id in r.mapInfo && r.mapInfo[id] == s.mapInfo[id]
  {
    hide TriedSlot, TriedRead;
    var r := LoadTried(net, s, e[n]);
    if OwnTried(net, s.nKey, e[n]) in s.vvTried {
      TriedSkipped(net, s, e, split, n);
      TriedCounted(net, s, r, e, split, n + 1);
    } else {
      TriedStep(net, s, r, e, split, n, r.mapInfo[s.nIdCount]);
    }
  }

  lemma {:induction false} ReadTriedFiles(net: Network, s: State, tokens: seq<Token>, n: nat, count: nat, split: nat,
                                          e: seq<Saved>)
    requires n <= count && split + count <= |e| && TriedRead(net, s, e, split, split + n)
    requires Spells(tokens, e, split + n, count - n)
    ensures
      var read := ReadTried(net, s, tokens, n, count);
      && read.Done? && TriedRead(net, read.state, e, split, split + count)
      && read.state.nKey == s.nKey && read.state.vvNew == s.vvNew && s.nIdCount <= read.state.nIdCount
      && read.state.nNew == s.nNew
      && forall id | id in s.mapInfo && id < s.nIdCount :: id in read.state.mapInfo && read.state.mapInfo[id] == s.mapInfo[id]
    decreases count - n
  {
    hide TriedRead, LoadTried;
    if n < count {
      LoadTriedFiles(net, s, e, split, split + n);
      SpellsNext(tokens, e, split + n, count - n);
      ReadTriedFiles(net, LoadTried(net, s, e[split + n]), tokens[1..], n + 1, count, split, e);
    }
  }

  // ------------------------------------------------------------------------ references

  // An index listed for a bucket of the new table.
  datatype Ref = Ref(bucket: nat, index: int)

  // How many indices a listed size stands for.
  function Many(size: int): nat { if size < 0 then 0 else size }

  ghost function BucketRefs(tokens: seq<Token>, bucket: nat, n: nat): set<Ref> {
    set k | 0 <= k < n && k < |tokens| && tokens[k].Num? :: Ref(bucket, tokens[k].n)
  }

  // Every bucket has its size and then as many indices.
  ghost function TableRefs(tokens: seq<Token>, bucket: nat, buckets: int): set<Ref>
    decreases buckets - bucket
  {
    if bucket >= buckets || tokens == [] || !tokens[0].Num? || Many(tokens[0].n) >= |tokens| then {}
    else
      var size := Many(tokens[0].n);
      BucketRefs(tokens[1..], bucket, size) + TableRefs(tokens[1..][size..], bucket + 1, buckets)
  }

  lemma BucketRefsNext(tokens: seq<Token>, bucket: nat, n: nat)
    requires n > 0 && tokens != [] && tokens[0].Num?
    ensures BucketRefs(tokens, bucket, n) == {Ref(bucket, tokens[0].n)} + BucketRefs(tokens[1..], bucket, n - 1)
  {
    forall k | 0 <= k < n - 1 && k < |tokens[1..]| && tokens[1..][k].Num?
      ensures Ref(bucket, tokens[1..][k].n) in BucketRefs(tokens, bucket, n)
    {
      assert tokens[1..][k] == tokens[k + 1];
    }
    forall k | 1 <= k < n && k < |tokens| && tokens[k].Num?
      ensures Ref(bucket, tokens[k].n) in BucketRefs(tokens[1..], bucket, n - 1)
    {
      assert tokens[1..][k - 1] == tokens[k];
    }
  }

  lemma {:induction false} ReadBucketTakes(net: Network, s: State, tokens: seq<Token>, bucket: nat, n: nat, size: int,
                                           usable: bool)
    requires ReadBucket(net, s, tokens, bucket, n, size, usable).Done?
    ensures Many(size - n) <= |tokens|
    ensures ReadBucket(net, s, tokens, bucket, n, size, usable).rest == tokens[Many(size - n)..]
    decreases size - n
  {
    hide LoadRef;
    if n < size {
      ReadBucketTakes(net, LoadRef(net, s, bucket, tokens[0].n, usable), tokens[1..], bucket, n + 1, size, usable);
    }
  }

  // An index that names a new entry is taken up, unless its slot is taken or it is there eight times.
  ghost predicate TakenUp(net: Network, r: State, ref: Ref) {
    && ref.index in r.mapInfo
    && (NewSlotIn(net, r.nKey, r.mapInfo[ref.index].Service(), ref.bucket) in r.vvNew || r.mapInfo[ref.index].nRefCount >= 8)
  }

  // Entries only gain references, and slots are not taken over.
  ghost predicate Gained(s: State, r: State) {
    && r == s.(mapInfo := r.mapInfo, vvNew := r.vvNew) && r.mapInfo.Keys == s.mapInfo.Keys
    && (forall id | id in s.mapInfo :: GainedAt(s.mapInfo[id], r.mapInfo[id]))
    && (forall slot | slot in s.vvNew :: Holds(r.vvNew, slot, s.vvNew[slot]))
  }

  predicate GainedAt(before: Info, after: Info) {
    after.nRefCount >= before.nRefCount && after == before.(nRefCount := after.nRefCount)
  }

  ghost predicate RefsRead(net: Network, s: State, r: State, refs: set<Ref>) {
    && Gained(s, r)
    && (forall slot | slot in r.vvNew :: slot in s.vvNew || Ref(slot.bucket, r.vvNew[slot]) in refs)
    && (forall ref | ref in refs && 0 <= ref.index < s.nNew && ref.index in s.mapInfo :: TakenUp(net, r, ref))
  }

  lemma TakenUpStays(net: Network, m: State, r: State, ref: Ref)
    requires TakenUp(net, m, ref) && Gained(m, r)
    ensures TakenUp(net, r, ref)
  {
    hide NewSlotIn;
    assert ref.index in r.mapInfo.Keys;
    assert GainedAt(m.mapInfo[ref.index], r.mapInfo[ref.index]);
  }

  lemma GainedTwice(s: State, m: State, r: State)
    requires Gained(s, m) && Gained(m, r)
    ensures Gained(s, r)
  {
    forall id | id in s.mapInfo
      ensures GainedAt(s.mapInfo[id], r.mapInfo[id])
    {
      assert id in m.mapInfo.Keys;
      assert GainedAt(m.mapInfo[id], r.mapInfo[id]);
    }
  }

  lemma RefsReadTwice(net: Network, s: State, m: State, r: State, first: set<Ref>, second: set<Ref>)
    requires RefsRead(net, s, m, first) && RefsRead(net, m, r, second)
    ensures RefsRead(net, s, r, first + second)
  {
    GainedTwice(s, m, r);
    hide Gained, TakenUp;
    forall ref | ref in first && 0 <= ref.index < s.nNew && ref.index in s.mapInfo
      ensures TakenUp(net, r, ref)
    {
      TakenUpStays(net, m, r, ref);
    }
    SameNames(s, m);
    HeldOn(m, r);
  }

  lemma SameNames(s: State, m: State)
    requires Gained(s, m)
    ensures m.nNew == s.nNew && forall id | id in s.mapInfo :: id in m.mapInfo
  {
    forall id | id in s.mapInfo
      ensures id in m.mapInfo
    {
      assert id in m.mapInfo.Keys;
    }
  }

  lemma HeldOn(m: State, r: State)
    requires Gained(m, r)
    ensures forall slot | slot in m.vvNew :: slot in r.vvNew && r.vvNew[slot] == m.vvNew[slot]
  {
  }

  lemma NoRefsRead(net: Network, s: State)
    ensures RefsRead(net, s, s, {})
  {
  }

  lemma LoadRefTakes(net: Network, s: State, bucket: nat, index: int)
    ensures RefsRead(net, s, LoadRef(net, s, bucket, index, true), {Ref(bucket, index)})
  {
    hide GetBucketPosition;
  }

  lemma {:induction false} ReadBucketRefs(net: Network, s: State, tokens: seq<Token>, bucket: nat, n: nat, size: int)
    requires ReadBucket(net, s, tokens, bucket, n, size, true).Done?
    ensures RefsRead(net, s, ReadBucket(net, s, tokens, bucket, n, size, true).state, BucketRefs(tokens, bucket, Many(size - n)))
    decreases size - n
  {
    hide RefsRead, LoadRef;
    NoRefsRead(net, s);
    if n < size {
      var next := LoadRef(net, s, bucket, tokens[0].n, true);
      LoadRefTakes(net, s, bucket, tokens[0].n);
      ReadBucketRefs(net, next, tokens[1..], bucket, n + 1, size);
      BucketRefsNext(tokens, bucket, size - n);
      var r := ReadBucket(net, s, tokens, bucket, n, size, true).state;
      RefsReadTwice(net, s, next, r, {Ref(bucket, tokens[0].n)}, BucketRefs(tokens[1..], bucket, size - n - 1));
    } else {
      assert BucketRefs(tokens, bucket, 0) == {};
    }
  }

  lemma {:induction false} ReadTableRefs(net: Network, s: State, tokens: seq<Token>, bucket: nat, buckets: int)
    requires ReadTable(net, s, tokens, bucket, buckets, true).Done?
    ensures RefsRead(net, s, ReadTable(net, s, tokens, bucket, buckets, true).state, TableRefs(tokens, bucket, buckets))
    decreases buckets - bucket
  {
    hide RefsRead, ReadBucket, BucketRefs;
    if bucket < buckets {
      var size := tokens[0].n;
      var read := ReadBucket(net, s, tokens[1..], bucket, 0, size, true);
      ReadBucketTakes(net, s, tokens[1..], bucket, 0, size, true);
      ReadBucketRefs(net, s, tokens[1..], bucket, 0, size);
      ReadTableRefs(net, read.state, read.rest, bucket + 1, buckets);
      var r := ReadTable(net, s, tokens, bucket, buckets, true).state;
      RefsReadTwice(net, s, read.state, r, BucketRefs(tokens[1..], bucket, Many(size)),
                    TableRefs(read.rest, bucket + 1, buckets));
    } else {
      NoRefsRead(net, s);
    }
  }

  // A table that cannot be used is read over.
  lemma {:induction false} ReadBucketIdle(net: Network, s: State, tokens: seq<Token>, bucket: nat, n: nat, size: int)
    requires ReadBucket(net, s, tokens, bucket, n, size, false).Done?
    ensures ReadBucket(net, s, tokens, bucket, n, size, false).state == s
    decreases size - n
  {
    if n < size {
      ReadBucketIdle(net, s, tokens[1..], bucket, n + 1, size);
    }
  }

  lemma {:induction false} ReadTableIdle(net: Network, s: State, tokens: seq<Token>, bucket: nat, buckets: int)
    requires ReadTable(net, s, tokens, bucket, buckets, false).Done?
    ensures ReadTable(net, s, tokens, bucket, buckets, false).state == s
    decreases buckets - bucket
  {
    if bucket < buckets {
      var read := ReadBucket(net, s, tokens[1..], bucket, 0, tokens[0].n, false);
      ReadBucketIdle(net, s, tokens[1..], bucket, 0, tokens[0].n);
      ReadTableIdle(net, s, read.rest, bucket + 1, buckets);
    }
  }

  // --------------------------------------------------------------------------- pruning

  // Exactly the new entries without a reference go; everybody else and the tables stay.
  ghost predicate Pruned(s: State, r: State, ids: seq<int>) {
    && r.nKey == s.nKey && r.vvNew == s.vvNew && r.vvTried == s.vvTried
    && (forall id :: id in r.mapInfo <==> id in s.mapInfo && !(id in ids && Prunable(s, id)))
    && StatsKept(s, r, r.mapInfo.Keys)
  }

  lemma {:induction false} PruneExact(s: State, ids: seq<int>)
    requires RandomLinked(s)
    ensures Pruned(s, Prune(s, ids), ids)
    decreases |ids|
  {
    hide RandomLinked, Delete, Stats;
    if ids != [] {
      var next := if Prunable(s, ids[0]) then Delete(s, ids[0]) else s;
      if Prunable(s, ids[0]) {
        DeleteShape(s, ids[0]);
      }
      PruneExact(next, ids[1..]);
      PrunedNext(s, next, Prune(next, ids[1..]), ids);
    }
  }

  lemma PrunedNext(s: State, next: State, r: State, ids: seq<int>)
    requires ids != [] && Pruned(next, r, ids[1..]) && next.nKey == s.nKey && next.vvNew == s.vvNew && next.vvTried == s.vvTried
    requires StatsKept(s, next, next.mapInfo.Keys)
    requires next.mapInfo.Keys == if Prunable(s, ids[0]) then s.mapInfo.Keys - {ids[0]} else s.mapInfo.Keys
    ensures Pruned(s, r, ids)
  {
    assert ids == [ids[0]] + ids[1..];
    forall id
      ensures id in r.mapInfo <==> id in s.mapInfo && !(id in ids && Prunable(s, id))
      ensures id in r.mapInfo ==> Stats(r.mapInfo[id]) == Stats(s.mapInfo[id])
    {
      assert id in next.mapInfo.Keys <==> id in next.mapInfo;
      if id in next.mapInfo {
        assert Stats(next.mapInfo[id]) == Stats(s.mapInfo[id]);
        assert id in r.mapInfo.Keys <==> id in r.mapInfo;
      }
    }
  }

  // ------------------------------------------------------------------------- a stream

  // What is read, before pruning.
  ghost predicate BodyIs(net: Network, s: State, e: seq<Saved>, split: nat, usable: bool, refs: set<Ref>)
    requires split <= |e|
  {
    && s.nNew == split && (forall i | 0 <= i < split :: ReadAs(s.mapInfo, e, i))
    && TriedRead(net, s, e, split, |e|)
    && (if usable then RefsAre(net, s, refs) else NewFiled(net, s, e, split))
  }

  ghost predicate RefsAre(net: Network, s: State, refs: set<Ref>) {
    && (forall slot | slot in s.vvNew :: Ref(slot.bucket, s.vvNew[slot]) in refs)
    && (forall ref | ref in refs && 0 <= ref.index < s.nNew :: TakenUp(net, s, ref))
  }

  lemma NewStays(net: Network, s: State, r: State, e: seq<Saved>, n: nat, usable: bool)
    requires n <= |e| && NewRead(net, s, e, n, usable) && r.nKey == s.nKey && r.vvNew == s.vvNew
    requires forall i | 0 <= i < n && i in s.mapInfo :: i in r.mapInfo && r.mapInfo[i] == s.mapInfo[i]
    ensures NewRead(net, r, e, n, usable)
  {
    hide Occupied, Save, FirstNew;
    forall i | 0 <= i < n
      ensures ReadAs(r.mapInfo, e, i) && (usable ==> r.mapInfo[i].nRefCount == 0)
      ensures !usable ==> FiledAt(net, r.nKey, r.mapInfo, e, i)
    {
      if usable {
        assert ReadAs(s.mapInfo, e, i);
      } else {
        assert FiledAt(net, s.nKey, s.mapInfo, e, i);
      }
    }
  }

  lemma TriedStays(net: Network, s: State, r: State, e: seq<Saved>, split: nat)
    requires split <= |e| && TriedRead(net, s, e, split, |e|) && Gained(s, r)
    ensures TriedRead(net, r, e, split, |e|)
  {
    hide OwnTried, FirstTried, OwnTrieds;
    forall id | id in r.mapInfo
      ensures id in s.mapInfo
    {
      assert id in r.mapInfo.Keys;
    }
    forall i | split <= i < |e| && FirstTried(net, s.nKey, e, split, i)
      ensures HeldBy(r, OwnTried(net, s.nKey, e[i]), e[i])
    {
      var id := s.vvTried[OwnTried(net, s.nKey, e[i])];
      assert HeldBy(s, OwnTried(net, s.nKey, e[i]), e[i]);
      assert id in r.mapInfo.Keys && GainedAt(s.mapInfo[id], r.mapInfo[id]);
    }
  }

  lemma ReadsStay(s: State, r: State, e: seq<Saved>, n: nat)
    requires n <= |e| && Gained(s, r) && forall i | 0 <= i < n :: ReadAs(s.mapInfo, e, i)
    ensures forall i | 0 <= i < n :: ReadAs(r.mapInfo, e, i)
  {
    forall i | 0 <= i < n
      ensures ReadAs(r.mapInfo, e, i)
    {
      assert ReadAs(s.mapInfo, e, i);
      assert i in r.mapInfo.Keys && GainedAt(s.mapInfo[i], r.mapInfo[i]);
    }
  }

  // The references are read on top of an empty table.
  lemma RefsAreThose(net: Network, s: State, r: State, e: seq<Saved>, split: nat, refs: set<Ref>)
    requires split <= |e| && s.nNew == split && NewListed(s, e, split) && TriedRead(net, s, e, split, |e|)
    requires RefsRead(net, s, r, refs)
    ensures BodyIs(net, r, e, split, true, refs)
  {
    TriedStays(net, s, r, e, split);
    ReadsStay(s, r, e, split);
    SameNames(s, r);
    forall i | 0 <= i < split
      ensures i in s.mapInfo
    {
      assert ReadAs(s.mapInfo, e, i);
    }
    hide TriedRead, TakenUp, ReadAs, Gained;
  }

  lemma NewReads(net: Network, s: State, e: seq<Saved>, n: nat, usable: bool)
    requires n <= |e| && NewRead(net, s, e, n, usable)
    ensures forall i | 0 <= i < n :: ReadAs(s.mapInfo, e, i)
  {
    hide Occupied, ReadAs, FirstNew;
    forall i | 0 <= i < n
      ensures ReadAs(s.mapInfo, e, i)
    {
      assert !usable ==> FiledAt(net, s.nKey, s.mapInfo, e, i);
    }
  }

  lemma TableBody(net: Network, s: State, tokens: seq<Token>, buckets: int, usable: bool, e: seq<Saved>, split: nat)
    requires split <= |e| && s.nNew == split && NewRead(net, s, e, split, usable) && TriedRead(net, s, e, split, |e|)
    requires ReadTable(net, s, tokens, 0, buckets, usable).Done?
    ensures BodyIs(net, ReadTable(net, s, tokens, 0, buckets, usable).state, e, split, usable, TableRefs(tokens, 0, buckets))
  {
    hide ReadTable, TriedRead, NewFiled, NewListed, TableRefs, ReadAs;
    if usable {
      ReadTableRefs(net, s, tokens, 0, buckets);
      RefsAreThose(net, s, ReadTable(net, s, tokens, 0, buckets, usable).state, e, split, TableRefs(tokens, 0, buckets));
    } else {
      ReadTableIdle(net, s, tokens, 0, buckets);
      NewReads(net, s, e, split, usable);
    }
  }

  lemma StartRead(net: Network, start: State, e: seq<Saved>, usable: bool)
    requires start.vvNew == map[]
    ensures NewRead(net, start, e, 0, usable)
  {
  }

  lemma TriedStart(net: Network, s: State, e: seq<Saved>, split: nat)
    requires split <= |e| && s.vvTried == map[] && s.nIdCount == split && InOrderTo(s, split, split)
    ensures TriedRead(net, s, e, split, split)
  {
    assert OwnTrieds(net, s.nKey, e, split, split) == {};
  }

  // All of the stream.
  lemma BodyRead(net: Network, start: State, tokens: seq<Token>, buckets: int, usable: bool, e: seq<Saved>)
    requires start.nNew >= 0 && start.nTried >= 0 && |e| == start.nNew + start.nTried && Spells(tokens, e, 0, |e|)
    requires start.vvNew == map[] && start.vvTried == map[] && start.mapInfo == map[] && Rebuilt(net, start)
    requires ReadBody(net, start, tokens, buckets, usable).Done?
    ensures
      var refs := TableRefs(tokens[|e|..], 0, buckets);
      BodyIs(net, ReadBody(net, start, tokens, buckets, usable).state, e, start.nNew, usable, refs)
  {
    hide Rebuilt, ReadNew, ReadTried, ReadTable, NewRead, TriedRead, BodyIs, TableRefs;
    var split := start.nNew;
    StartRead(net, start, e, usable);
    assert Spells(tokens, e, 0, split);
    ReadNewFiles(net, start, tokens, 0, split, usable, e);
    ReadNewTakes(net, start, tokens, 0, split, usable);
    ReadNewRebuilt(net, start, tokens, 0, split, usable);
    var withNew := ReadNew(net, start, tokens, 0, split, usable).state;
    var counted := withNew.(nIdCount := split);
    SameOrder(withNew, counted, split, split);
    NewStays(net, withNew, counted, e, split, usable);
    TriedStart(net, counted, e, split);
    assert Spells(tokens[split..], e, split, start.nTried) by {
      SpellsLater(tokens, e, split, start.nTried);
    }
    TriedPart(net, counted, tokens[split..], buckets, usable, e, split, start.nTried);
    assert tokens[split..][start.nTried..] == tokens[|e|..];
  }

  lemma SpellsLater(tokens: seq<Token>, e: seq<Saved>, n: nat, m: nat)
    requires Spells(tokens, e, 0, n + m)
    ensures Spells(tokens[n..], e, n, m)
  {
  }

  lemma TriedPart(net: Network, s: State, tokens: seq<Token>, buckets: int, usable: bool, e: seq<Saved>, split: nat,
                  count: nat)
    requires |e| == split + count && Spells(tokens, e, split, count) && s.nNew == split && s.nIdCount == split
    requires NewRead(net, s, e, split, usable) && TriedRead(net, s, e, split, split)
    requires
      var read := ReadTried(net, s, tokens, 0, count);
      read.Done? && ReadTable(net, read.state, read.rest, 0, buckets, usable).Done?
    ensures
      var read := ReadTried(net, s, tokens, 0, count);
      BodyIs(net, ReadTable(net, read.state, read.rest, 0, buckets, usable).state, e, split, usable,
             TableRefs(tokens[count..], 0, buckets))
  {
    hide ReadTried, ReadTable, NewRead, TriedRead, BodyIs, TableRefs;
    ReadTriedFiles(net, s, tokens, 0, count, split, e);
    ReadTriedTakes(net, s, tokens, 0, count);
    var read := ReadTried(net, s, tokens, 0, count);
    NewStays(net, s, read.state, e, split, usable);
    TableBody(net, read.state, read.rest, buckets, usable, e, split);
  }

  // ------------------------------------------------------------------------ the result

  // What an entry was read as, and how it is filed, it stays.
  lemma PrunedReads(s: State, r: State, ids: seq<int>, e: seq<Saved>, n: nat)
    requires n <= |e| && Pruned(s, r, ids) && forall i | 0 <= i < n :: ReadAs(s.mapInfo, e, i)
    ensures forall i | 0 <= i < n && i in r.mapInfo ::
      ReadAs(r.mapInfo, e, i) && r.mapInfo[i].nRefCount == s.mapInfo[i].nRefCount
  {
    forall i | 0 <= i < n && i in r.mapInfo
      ensures ReadAs(r.mapInfo, e, i) && r.mapInfo[i].nRefCount == s.mapInfo[i].nRefCount
    {
      assert ReadAs(s.mapInfo, e, i);
      assert i in r.mapInfo.Keys;
      assert Stats(r.mapInfo[i]) == Stats(s.mapInfo[i]);
    }
  }

  lemma PrunedTried(s: State, r: State, ids: seq<int>, slot: Slot, e: Saved)
    requires Pruned(s, r, ids) && HeldBy(s, slot, e)
    ensures HeldBy(r, slot, e)
  {
    var id := s.vvTried[slot];
    assert id in r.mapInfo;
    assert id in r.mapInfo.Keys;
    assert Stats(r.mapInfo[id]) == Stats(s.mapInfo[id]);
  }

  // An entry goes exactly if it has no slot of the new table.
  lemma PrunedIff(s: State, r: State, ids: seq<int>, e: seq<Saved>, n: nat, i: nat)
    requires i < n <= |e| && Pruned(s, r, ids) && RefsCounted(s) && ReadAs(s.mapInfo, e, i) && i in ids
    ensures i in r.mapInfo <==> exists slot :: Holds(s.vvNew, slot, i)
    ensures i in r.mapInfo <==> s.mapInfo[i].nRefCount != 0
  {
    hide Save;
    if s.mapInfo[i].nRefCount == 0 {
      assert Refs(s.vvNew, i) == {};
      assert forall slot | Holds(s.vvNew, slot, i) :: slot in Refs(s.vvNew, i);
    } else {
      var slot :| slot in Refs(s.vvNew, i);
      assert Holds(s.vvNew, slot, i);
    }
  }

  // Without a usable table a new entry is kept exactly if it is the first of its slot, which it holds.
  ghost predicate KeptByOwnSlot(net: Network, key: nat, r: State, e: seq<Saved>, n: nat)
    requires n <= |e|
  {
    && Occupied(net, key, r.vvNew, e, n)
    && forall i | 0 <= i < n :: i in r.mapInfo <==> FirstNew(net, key, e, i)
  }

  // With one, the new table is made of listed references; a listed one is missing only if its slot is
  // taken or the entry has eight; and an entry is kept exactly if it has any.
  ghost predicate KeptByRefs(net: Network, key: nat, r: State, e: seq<Saved>, n: nat, refs: set<Ref>)
    requires n <= |e|
  {
    && (forall slot | slot in r.vvNew :: Ref(slot.bucket, r.vvNew[slot]) in refs)
    && (forall ref | ref in refs && 0 <= ref.index < n ::
          || NewSlotIn(net, key, e[ref.index].address.service, ref.bucket) in r.vvNew
          || (ref.index in r.mapInfo && r.mapInfo[ref.index].nRefCount >= 8))
    && (forall i | 0 <= i < n :: i in r.mapInfo <==> exists slot :: Holds(r.vvNew, slot, i))
  }

  lemma PrunedOwnSlot(net: Network, s: State, r: State, ids: seq<int>, e: seq<Saved>, n: nat)
    requires n <= |e| && Pruned(s, r, ids) && RefsCounted(s) && NewFiled(net, s, e, n)
    requires forall i | 0 <= i < n :: i in ids
    ensures KeptByOwnSlot(net, s.nKey, r, e, n)
  {
    hide Occupied, FirstNew, RefsCounted;
    forall i | 0 <= i < n
      ensures i in r.mapInfo <==> FirstNew(net, s.nKey, e, i)
    {
      assert FiledAt(net, s.nKey, s.mapInfo, e, i);
      PrunedIff(s, r, ids, e, n, i);
    }
  }

  lemma PrunedRefs(net: Network, s: State, r: State, ids: seq<int>, e: seq<Saved>, n: nat, refs: set<Ref>)
    requires n <= |e| && Pruned(s, r, ids) && RefsCounted(s) && RefsAre(net, s, refs) && s.nNew == n
    requires forall i | 0 <= i < n :: i in ids && ReadAs(s.mapInfo, e, i)
    ensures KeptByRefs(net, s.nKey, r, e, n, refs)
  {
    hide RefsCounted, NewSlotIn;
    PrunedReads(s, r, ids, e, n);
    forall i | 0 <= i < n
      ensures i in r.mapInfo <==> exists slot :: Holds(r.vvNew, slot, i)
      ensures i in r.mapInfo <==> i in s.mapInfo && s.mapInfo[i].nRefCount != 0
    {
      PrunedIff(s, r, ids, e, n, i);
    }
    hide Pruned;
    forall ref | ref in refs && 0 <= ref.index < n
      ensures NewSlotIn(net, s.nKey, e[ref.index].address.service, ref.bucket) in s.vvNew
           || (ref.index in r.mapInfo && r.mapInfo[ref.index].nRefCount >= 8)
    {
      assert TakenUp(net, s, ref) && ReadAs(s.mapInfo, e, ref.index);
    }
  }

  lemma BodyBegins(net: Network, start: State, tokens: seq<Token>, buckets: int, usable: bool)
    requires start.nNew >= 0 && start.nTried >= 0 && ReadBody(net, start, tokens, buckets, usable).Done?
    ensures Begins(tokens, start.nNew + start.nTried)
  {
    hide ReadNew, ReadTried, ReadTable;
    var read := ReadNew(net, start, tokens, 0, start.nNew, usable);
    ReadNewTakes(net, start, tokens, 0, start.nNew, usable);
    ReadTriedTakes(net, read.state.(nIdCount := start.nNew), read.rest, 0, start.nTried);
    forall i | 0 <= i < start.nNew + start.nTried
      ensures tokens[i].Entry?
    {
      assert i >= start.nNew ==> tokens[i] == read.rest[i - start.nNew];
    }
  }

  // The table can be used if the version is 1 and 1024 buckets are announced, with bit 30 flipped.
  lemma UsableIff(tokens: seq<Token>)
    requires HeaderOk(tokens)
    ensures Usable(tokens[0].n, BucketCount(tokens)) <==> tokens[0].n == 1 && tokens[5].n == 0x4000_0400
    ensures Usable(tokens[0].n, BucketCount(tokens)) ==> BucketCount(tokens) == 1024
  {
  }

  // Of a stream that can be read: the entries, in order, first the new ones; which of them are kept; and
  // that of the tried ones the first of each slot is.
  lemma StreamKeeps(net: Network, prior: State, tokens: seq<Token>) returns (r: State, e: seq<Saved>)
    requires CountsGiven(tokens) && Unserialize(net, prior, tokens).Some?
    ensures Unserialize(net, prior, tokens) == Some(r)
    ensures |e| == tokens[3].n + tokens[4].n && Spells(tokens[6..], e, 0, |e|)
    ensures
      var key, n := tokens[2].key, tokens[3].n;
      && (forall i | 0 <= i < n && i in r.mapInfo :: ReadAs(r.mapInfo, e, i))
      && (if tokens[0].n == 1 && tokens[5].n == 0x4000_0400
          then KeptByRefs(net, key, r, e, n, TableRefs(tokens[6..][|e|..], 0, 1024))
          else KeptByOwnSlot(net, key, r, e, n))
      && r.vvTried.Keys == OwnTrieds(net, key, e, n, |e|)
      && (forall i | n <= i < |e| && FirstTried(net, key, e, n, i) :: HeldBy(r, OwnTried(net, key, e[i]), e[i]))
  {
    var buckets := BucketCount(tokens);
    var usable := Usable(tokens[0].n, buckets);
    var start := Started(prior, tokens);
    assert Rebuilt(net, start);
    UsableIff(tokens);
    ReadAllLinked(net, prior, tokens);
    ReadAllRebuilt(net, prior, tokens);
    hide Usable, BucketCount, ReadBody, Rebuilt, RandomLinked, BodyIs, KeptByRefs, KeptByOwnSlot, TableRefs;
    BodyBegins(net, start, tokens[6..], buckets, usable);
    var count := tokens[3].n + tokens[4].n;
    e := seq(count, i requires 0 <= i < count => tokens[6..][i].saved);
    BodyRead(net, start, tokens[6..], buckets, usable, e);
    var s := ReadBody(net, start, tokens[6..], buckets, usable).state;
    r := Prune(s, Order(s.mapInfo.Keys));
    StreamPruned(net, s, e, tokens[3].n, usable, TableRefs(tokens[6..][|e|..], 0, buckets));
  }

  lemma StreamPruned(net: Network, s: State, e: seq<Saved>, n: nat, usable: bool, refs: set<Ref>)
    requires n <= |e| && BodyIs(net, s, e, n, usable, refs) && Rebuilt(net, s) && RandomLinked(s)
    ensures
      var r := Prune(s, Order(s.mapInfo.Keys));
      && (forall i | 0 <= i < n && i in r.mapInfo :: ReadAs(r.mapInfo, e, i))
      && (if usable then KeptByRefs(net, s.nKey, r, e, n, refs) else KeptByOwnSlot(net, s.nKey, r, e, n))
      && r.vvTried.Keys == OwnTrieds(net, s.nKey, e, n, |e|)
      && (forall i | n <= i < |e| && FirstTried(net, s.nKey, e, n, i) :: HeldBy(r, OwnTried(net, s.nKey, e[i]), e[i]))
  {
    var ids := Order(s.mapInfo.Keys);
    var r := Prune(s, ids);
    PruneExact(s, ids);
    OrderComplete(s.mapInfo.Keys);
    forall i | 0 <= i < n
      ensures i in ids
    {
      assert ReadAs(s.mapInfo, e, i);
    }
    hide Prune, Order, RandomLinked, RefsCounted, NewPlaced, TriedPlaced, TriedHeld, NeverTried;
    hide NewFiled, RefsAre, KeptByRefs, KeptByOwnSlot, ReadAs, OwnTrieds, FirstTried, OwnTried;
    if usable {
      PrunedRefs(net, s, r, ids, e, n, refs);
    } else {
      PrunedOwnSlot(net, s, r, ids, e, n);
    }
    PrunedReads(s, r, ids, e, n);
    hide Pruned, HeldBy;
    forall i | n <= i < |e| && FirstTried(net, s.nKey, e, n, i)
      ensures HeldBy(r, OwnTried(net, s.nKey, e[i]), e[i])
    {
      PrunedTried(s, r, ids, OwnTried(net, s.nKey, e[i]), e[i]);
    }
    PrunedTables(s, r, ids);
  }

  lemma PrunedTables(s: State, r: State, ids: seq<int>)
    requires Pruned(s, r, ids)
    ensures r.vvTried == s.vvTried && r.nKey == s.nKey
  {
  }
}
