/**
 Serialize, Unserialize and Clear of src/addrman.h, on a stream of tokens: integers, the
 key, and the part of an entry that is written out. Of the indexes only the new table is
 written, as positions in the list of entries; everything else is rebuilt.
 */
module AddrManSerial {
  import opened Options
  import opened AddrManState
  import opened AddrManRun

  // What CAddrInfo writes of itself.
  datatype Saved = Saved(address: Address, source: NetAddr, nLastSuccess: int, nAttempts: int)

  datatype Token = Num(n: int) | Key(key: nat) | Entry(saved: Saved)

  function Save(info: Info): Saved {
    Saved(info.address, info.source, info.nLastSuccess, info.nAttempts)
  }

  function Load(saved: Saved, pos: int): Info {
    NewInfo(saved.address, saved.source).(
      nLastSuccess := saved.nLastSuccess, nAttempts := saved.nAttempts, nRandomPos := pos)
  }

  const BIT_30 := 0x4000_0000

  // n ^ (1 << 30) on a 32-bit int
  function FlipBit30(n: int): int {
    if n / BIT_30 % 2 == 0 then n + BIT_30 else n - BIT_30
  }

  // ------------------------------------------------------------------- Serialize

  // The keys of a map in the order std::map iterates over them.
  ghost function Order(ids: set<int>): (order: seq<int>)
    ensures |order| == |ids|
    ensures forall i | 0 <= i < |order| :: order[i] in ids
    ensures forall i, j | 0 <= i < j < |order| :: order[i] != order[j]
    decreases |ids|
  {
    if ids == {} then []
    else
      LeastExists(ids);
      var id :| Least(id, ids);
      [id] + Order(ids - {id})
  }

  // Ids of the entries in the new table, in the order given.
  function SelectNew(s: State, ids: seq<int>): seq<int> {
    if ids == [] then []
    else
      var last := ids[|ids| - 1];
      SelectNew(s, ids[..|ids| - 1]) + if last in s.mapInfo && s.mapInfo[last].nRefCount != 0 then [last] else []
  }

  function SelectTried(s: State, ids: seq<int>): seq<int> {
    if ids == [] then []
    else
      var last := ids[|ids| - 1];
      SelectTried(s, ids[..|ids| - 1]) + if last in s.mapInfo && s.mapInfo[last].fInTried then [last] else []
  }

  // mapUnkIds: how many new entries were written before each id.
  function UnkIds(s: State, ids: seq<int>): map<int, int> {
    if ids == [] then map[]
    else UnkIds(s, ids[..|ids| - 1])[ids[|ids| - 1] := |SelectNew(s, ids[..|ids| - 1])|]
  }

  function Entries(s: State, ids: seq<int>): seq<Token>
    requires forall i | 0 <= i < |ids| :: ids[i] in s.mapInfo
  {
    seq(|ids|, i requires 0 <= i < |ids| => Entry(Save(s.mapInfo[ids[i]])))
  }

  // The positions written for one bucket, from slot `pos` on.
  function BucketTokens(table: Table, unk: map<int, int>, bucket: nat, pos: nat): seq<Token>
    decreases BUCKET_SIZE - pos
  {
    if pos >= BUCKET_SIZE then []
    else
      var slot := Slot(bucket, pos);
      (if slot in table && table[slot] in unk then [Num(unk[table[slot]])] else [])
      + BucketTokens(table, unk, bucket, pos + 1)
  }

  function TableTokens(table: Table, unk: map<int, int>, bucket: nat): seq<Token>
    decreases NEW_BUCKET_COUNT - bucket
  {
    if bucket >= NEW_BUCKET_COUNT then []
    else
      var tokens := BucketTokens(table, unk, bucket, 0);
      [Num(|tokens|)] + tokens + TableTokens(table, unk, bucket + 1)
  }

  lemma {:induction false} SelectKnown(s: State, ids: seq<int>)
    ensures forall i | 0 <= i < |SelectNew(s, ids)| :: SelectNew(s, ids)[i] in s.mapInfo
    ensures forall i | 0 <= i < |SelectTried(s, ids)| :: SelectTried(s, ids)[i] in s.mapInfo
  {
    if ids != [] {
      SelectKnown(s, ids[..|ids| - 1]);
    }
  }

  function Header(s: State): seq<Token> {
    [Num(1), Num(32), Key(s.nKey), Num(s.nNew), Num(s.nTried), Num(FlipBit30(NEW_BUCKET_COUNT))]
  }

  ghost function Serialize(s: State): seq<Token> {
    var ids := Order(s.mapInfo.Keys);
    SelectKnown(s, ids);
    Header(s)
    + (Entries(s, SelectNew(s, ids)) + (Entries(s, SelectTried(s, ids)) + TableTokens(s.vvNew, UnkIds(s, ids), 0)))
  }

  // ----------------------------------------------------------------- Unserialize

  // Clear: everything but the recorded collisions.
  function Clear(s: State, key: nat): State {
    Fresh(key).(triedCollisions := s.triedCollisions)
  }

  datatype Read = Failed | Done(state: State, rest: seq<Token>)

  // One new entry under id n; without a usable table it gets a slot by its own source.
  function LoadNew(net: Network, s: State, saved: Saved, n: nat, usable: bool): State {
    var info := Load(saved, |s.vRandom|);
    var loaded := s.(mapInfo := s.mapInfo[n := info], mapAddr := s.mapAddr[info.Addr() := n], vRandom := s.vRandom + [n]);
    var slot := NewSlot(net, s.nKey, info.Service(), info.source);
    if usable || slot in s.vvNew then loaded
    else WithInfo(loaded, n, info.(nRefCount := 1)).(vvNew := s.vvNew[slot := n])
  }

  function ReadNew(net: Network, s: State, tokens: seq<Token>, n: nat, count: int, usable: bool): Read
    decreases count - n
  {
    if n >= count then Done(s, tokens)
    else if tokens == [] || !tokens[0].Entry? then Failed
    else ReadNew(net, LoadNew(net, s, tokens[0].saved, n, usable), tokens[1..], n + 1, count, usable)
  }

  // One tried entry, unless its slot is taken.
  function LoadTried(net: Network, s: State, saved: Saved): State {
    var info := Load(saved, |s.vRandom|);
    var slot := TriedSlot(net, s.nKey, info.Service());
    if slot in s.vvTried then s.(nTried := s.nTried - 1)
    else s.(mapInfo := s.mapInfo[s.nIdCount := info.(fInTried := true)],
            mapAddr := s.mapAddr[info.Addr() := s.nIdCount],
            vRandom := s.vRandom + [s.nIdCount],
            vvTried := s.vvTried[slot := s.nIdCount],
            nIdCount := s.nIdCount + 1)
  }

  function ReadTried(net: Network, s: State, tokens: seq<Token>, n: nat, count: int): Read
    decreases count - n
  {
    if n >= count then Done(s, tokens)
    else if tokens == [] || !tokens[0].Entry? then Failed
    else ReadTried(net, LoadTried(net, s, tokens[0].saved), tokens[1..], n + 1, count)
  }

  // One position read for a bucket of the new table.
  function LoadRef(net: Network, s: State, bucket: nat, index: int, usable: bool): State {
    if 0 <= index < s.nNew && index in s.mapInfo && usable then
      var slot := NewSlotIn(net, s.nKey, s.mapInfo[index].Service(), bucket);
      if slot !in s.vvNew && s.mapInfo[index].nRefCount < NEW_BUCKETS_PER_ADDRESS then AddRef(s, index, slot) else s
    else s
  }

  function ReadBucket(net: Network, s: State, tokens: seq<Token>, bucket: nat, n: nat, size: int, usable: bool): Read
    decreases size - n
  {
    if n >= size then Done(s, tokens)
    else if tokens == [] || !tokens[0].Num? then Failed
    else ReadBucket(net, LoadRef(net, s, bucket, tokens[0].n, usable), tokens[1..], bucket, n + 1, size, usable)
  }

  function ReadTable(net: Network, s: State, tokens: seq<Token>, bucket: nat, buckets: int, usable: bool): Read
    decreases buckets - bucket
  {
    if bucket >= buckets then Done(s, tokens)
    else if tokens == [] || !tokens[0].Num? then Failed
    else
      match ReadBucket(net, s, tokens[1..], bucket, 0, tokens[0].n, usable)
      case Failed => Failed
      case Done(next, rest) => ReadTable(net, next, rest, bucket + 1, buckets, usable)
  }

  predicate Prunable(s: State, id: int) {
    id in s.mapInfo && !s.mapInfo[id].fInTried && s.mapInfo[id].nRefCount == 0
  }

  // The last loop: new entries that got no reference are deleted.
  ghost function Prune(s: State, ids: seq<int>): State
    requires RandomLinked(s)
    decreases |ids|
  {
    if ids == [] then s
    else Prune(if Prunable(s, ids[0]) then Delete(s, ids[0]) else s, ids[1..])
  }

  // Whether the written new table can be used.
  predicate Usable(version: int, buckets: int) {
    version == 1 && buckets == NEW_BUCKET_COUNT
  }

  predicate HeaderOk(tokens: seq<Token>) {
    && |tokens| >= 6
    && tokens[0].Num? && tokens[1].Num? && tokens[1].n == 32 && tokens[2].Key?
    && tokens[3].Num? && tokens[4].Num? && tokens[5].Num?
  }

  // The state before the first entry is read.
  function Started(prior: State, tokens: seq<Token>): State
    requires HeaderOk(tokens)
  {
    Clear(prior, tokens[2].key).(nNew := tokens[3].n, nTried := tokens[4].n)
  }

  function BucketCount(tokens: seq<Token>): int
    requires HeaderOk(tokens)
  {
    if tokens[0].n != 0 then FlipBit30(tokens[5].n) else tokens[5].n
  }

  // Entries and positions.
  function ReadBody(net: Network, start: State, tokens: seq<Token>, buckets: int, usable: bool): Read {
    match ReadNew(net, start, tokens, 0, start.nNew, usable)
    case Failed => Failed
    case Done(withNew, rest) =>
      match ReadTried(net, withNew.(nIdCount := start.nNew), rest, 0, start.nTried)
      case Failed => Failed
      case Done(withTried, rest') => ReadTable(net, withTried, rest', 0, buckets, usable)
  }

  // Everything Unserialize reads, before pruning.
  function ReadAll(net: Network, prior: State, tokens: seq<Token>): Read {
    if !HeaderOk(tokens) then Failed
    else
      var buckets := BucketCount(tokens);
      ReadBody(net, Started(prior, tokens), tokens[6..], buckets, Usable(tokens[0].n, buckets))
  }

  // ------------------------------------------------------- the order of entries

  lemma {:induction false} OrderComplete(ids: set<int>)
    ensures forall id | id in ids :: id in Order(ids)
    decreases |ids|
  {
    if ids != {} {
      LeastExists(ids);
      var id :| Least(id, ids) && Order(ids) == [id] + Order(ids - {id});
      OrderComplete(ids - {id});
    }
  }

  predicate IsNew(s: State, id: int) {
    id in s.mapInfo && s.mapInfo[id].nRefCount != 0
  }

  // Selecting the new entries keeps the order, and mapUnkIds gives each its position.
  lemma {:induction false} SelectNewFacts(s: State, ids: seq<int>)
    requires forall i, j | 0 <= i < j < |ids| :: ids[i] != ids[j]
    ensures forall id :: id in SelectNew(s, ids) <==> id in ids && IsNew(s, id)
    ensures forall i, j | 0 <= i < j < |SelectNew(s, ids)| :: SelectNew(s, ids)[i] != SelectNew(s, ids)[j]
    ensures forall id | id in ids :: id in UnkIds(s, ids)
    ensures forall id | id in ids && IsNew(s, id) ::
      0 <= UnkIds(s, ids)[id] < |SelectNew(s, ids)| && SelectNew(s, ids)[UnkIds(s, ids)[id]] == id
  {
    if ids != [] {
      var init := ids[..|ids| - 1];
      SelectNewFacts(s, init);
      assert ids == init + [ids[|ids| - 1]];
      forall i | 0 <= i < |SelectNew(s, init)|
        ensures SelectNew(s, init)[i] in init
      {
        assert SelectNew(s, init)[i] in SelectNew(s, init);
      }
    }
  }

  lemma {:induction false} SelectTriedFacts(s: State, ids: seq<int>)
    requires forall i, j | 0 <= i < j < |ids| :: ids[i] != ids[j]
    ensures forall id :: id in SelectTried(s, ids) <==> id in ids && IsTriedId(s, id)
    ensures forall i, j | 0 <= i < j < |SelectTried(s, ids)| :: SelectTried(s, ids)[i] != SelectTried(s, ids)[j]
  {
    if ids != [] {
      var init := ids[..|ids| - 1];
      SelectTriedFacts(s, init);
      assert ids == init + [ids[|ids| - 1]];
      forall i | 0 <= i < |SelectTried(s, init)|
        ensures SelectTried(s, init)[i] in init
      {
        assert SelectTried(s, init)[i] in SelectTried(s, init);
      }
    }
  }

  lemma {:induction false} DistinctSize(ids: seq<int>, elements: set<int>)
    requires forall i, j | 0 <= i < j < |ids| :: ids[i] != ids[j]
    requires forall id :: id in ids <==> id in elements
    ensures |ids| == |elements|
  {
    if ids == [] {
      if elements != {} {
        var id := Member(elements);
        assert false;
      }
    } else {
      var init := ids[..|ids| - 1];
      var last := ids[|ids| - 1];
      assert ids == init + [last];
      DistinctSize(init, elements - {last});
    }
  }

  // ------------------------------------------------------------ loading entries

  // Saved entries that come from one manager: no address and no tried slot twice.
  ghost predicate Separate(net: Network, key: nat, saved: seq<Saved>, nNew: nat) {
    && (forall i, j | 0 <= i < j < |saved| ::
          saved[i].address.service.addr != saved[j].address.service.addr)
    && (forall i, j | nNew <= i < j < |saved| ::
          TriedSlot(net, key, saved[i].address.service) != TriedSlot(net, key, saved[j].address.service))
  }

  // The state once the first n entries have been read under the ids 0 .. n-1.
  ghost predicate LoadedTo(net: Network, key: nat, saved: seq<Saved>, nNew: nat, n: nat, s: State) {
    && n <= |saved| && s.nKey == key && s.vvNew == map[]
    && InfosLoaded(saved, nNew, n, s)
    && AddrsLoaded(saved, n, s)
    && TriedLoaded(net, key, saved, nNew, n, s)
  }

  ghost predicate InfosLoaded(saved: seq<Saved>, nNew: nat, n: nat, s: State)
    requires n <= |saved|
  {
    && (forall id :: id in s.mapInfo <==> 0 <= id < n)
    && (forall i | 0 <= i < n :: s.mapInfo[i] == Load(saved[i], i).(fInTried := i >= nNew))
    && |s.vRandom| == n && (forall i | 0 <= i < n :: s.vRandom[i] == i)
  }

  ghost predicate AddrsLoaded(saved: seq<Saved>, n: nat, s: State)
    requires n <= |saved|
  {
    && (forall a | a in s.mapAddr :: 0 <= s.mapAddr[a] < n && saved[s.mapAddr[a]].address.service.addr == a)
    && (forall i | 0 <= i < n ::
          saved[i].address.service.addr in s.mapAddr && s.mapAddr[saved[i].address.service.addr] == i)
  }

  ghost predicate TriedLoaded(net: Network, key: nat, saved: seq<Saved>, nNew: nat, n: nat, s: State)
    requires n <= |saved|
  {
    && (forall slot | slot in s.vvTried ::
          nNew <= s.vvTried[slot] < n
          && slot == TriedSlot(net, key, saved[s.vvTried[slot]].address.service))
    && (forall i | nNew <= i < n :: Holds(s.vvTried, TriedSlot(net, key, saved[i].address.service), i))
  }

  lemma AddrsStep(saved: seq<Saved>, n: nat, s: State, r: State)
    requires n < |saved| && AddrsLoaded(saved, n, s)
    requires forall i, j | 0 <= i < j < |saved| ::
      saved[i].address.service.addr != saved[j].address.service.addr
    requires r.mapAddr == s.mapAddr[saved[n].address.service.addr := n]
    ensures AddrsLoaded(saved, n + 1, r)
  {
  }

  lemma TriedStep(net: Network, key: nat, saved: seq<Saved>, nNew: nat, n: nat, s: State, r: State)
    requires nNew <= n < |saved| && TriedLoaded(net, key, saved, nNew, n, s) && Separate(net, key, saved, nNew)
    ensures TriedSlot(net, key, saved[n].address.service) !in s.vvTried
    ensures r.vvTried == s.vvTried[TriedSlot(net, key, saved[n].address.service) := n] ==>
      TriedLoaded(net, key, saved, nNew, n + 1, r)
  {
    hide TriedSlot;
  }

  lemma LoadNewStep(net: Network, key: nat, saved: seq<Saved>, nNew: nat, n: nat, s: State)
    requires LoadedTo(net, key, saved, nNew, n, s) && Separate(net, key, saved, nNew) && n < nNew <= |saved|
    ensures LoadedTo(net, key, saved, nNew, n + 1, LoadNew(net, s, saved[n], n, true))
    ensures
      var r := LoadNew(net, s, saved[n], n, true);
      r == s.(mapInfo := r.mapInfo, mapAddr := r.mapAddr, vRandom := r.vRandom)
  {
    hide TriedSlot, AddrsLoaded;
    var r := LoadNew(net, s, saved[n], n, true);
    AddrsStep(saved, n, s, r);
    assert TriedLoaded(net, key, saved, nNew, n + 1, r);
  }

  lemma LoadTriedStep(net: Network, key: nat, saved: seq<Saved>, nNew: nat, n: nat, s: State)
    requires LoadedTo(net, key, saved, nNew, n, s) && Separate(net, key, saved, nNew) && nNew <= n < |saved|
    requires s.nIdCount == n
    ensures LoadedTo(net, key, saved, nNew, n + 1, LoadTried(net, s, saved[n]))
    ensures
      var r := LoadTried(net, s, saved[n]);
      r == s.(mapInfo := r.mapInfo, mapAddr := r.mapAddr, vRandom := r.vRandom, vvTried := r.vvTried, nIdCount := n + 1)
  {
    hide TriedSlot, AddrsLoaded, TriedLoaded;
    var r := LoadTried(net, s, saved[n]);
    TriedStep(net, key, saved, nNew, n, s, r);
    AddrsStep(saved, n, s, r);
  }

  lemma {:induction false} ReadNewLoads(net: Network, key: nat, saved: seq<Saved>, nNew: nat, n: nat, s: State,
                                        tokens: seq<Token>, rest: seq<Token>)
    requires LoadedTo(net, key, saved, nNew, n, s) && Separate(net, key, saved, nNew) && n <= nNew <= |saved|
    requires |tokens| == nNew - n && forall i | 0 <= i < nNew - n :: tokens[i] == Entry(saved[n + i])
    ensures
      var read := ReadNew(net, s, tokens + rest, n, nNew, true);
      && read.Done? && read.rest == rest
      && LoadedTo(net, key, saved, nNew, nNew, read.state)
      && read.state == s.(mapInfo := read.state.mapInfo, mapAddr := read.state.mapAddr, vRandom := read.state.vRandom)
    decreases nNew - n
  {
    hide LoadedTo, Separate, LoadNew;
    if n == nNew {
      assert tokens + rest == rest;
    } else {
      LoadNewStep(net, key, saved, nNew, n, s);
      var all := tokens + rest;
      assert all[0] == tokens[0] && all[1..] == tokens[1..] + rest;
      ReadNewLoads(net, key, saved, nNew, n + 1, LoadNew(net, s, saved[n], n, true), tokens[1..], rest);
    }
  }

  lemma {:induction false} ReadTriedLoads(net: Network, key: nat, saved: seq<Saved>, nNew: nat, n: nat, s: State,
                                          tokens: seq<Token>, rest: seq<Token>)
    requires LoadedTo(net, key, saved, nNew, nNew + n, s) && Separate(net, key, saved, nNew)
    requires s.nIdCount == nNew + n && nNew + n <= |saved|
    requires |tokens| == |saved| - nNew - n && forall i | 0 <= i < |tokens| :: tokens[i] == Entry(saved[nNew + n + i])
    ensures
      var read := ReadTried(net, s, tokens + rest, n, |saved| - nNew);
      && read.Done? && read.rest == rest
      && LoadedTo(net, key, saved, nNew, |saved|, read.state)
      && read.state == s.(mapInfo := read.state.mapInfo, mapAddr := read.state.mapAddr,
                          vRandom := read.state.vRandom, vvTried := read.state.vvTried, nIdCount := |saved|)
    decreases |saved| - n
  {
    hide LoadedTo, Separate, LoadTried;
    if nNew + n == |saved| {
      assert tokens + rest == rest;
    } else {
      LoadTriedStep(net, key, saved, nNew, nNew + n, s);
      var all := tokens + rest;
      assert all[0] == tokens[0] && all[1..] == tokens[1..] + rest;
      ReadTriedLoads(net, key, saved, nNew, n + 1, LoadTried(net, s, saved[nNew + n]), tokens[1..], rest);
    }
  }

  // ---------------------------------------------------------- loading references

  // The new table in terms of the positions written for it.
  ghost function Renamed(table: Table, unk: map<int, int>): Table {
    map slot | slot in table && table[slot] in unk :: unk[table[slot]]
  }

  ghost predicate Before(slot: Slot, bucket: nat, pos: nat) {
    slot.bucket < bucket || (slot.bucket == bucket && slot.pos < pos)
  }

  // What has been read of a table before slot (bucket, pos).
  ghost function Upto(full: Table, bucket: nat, pos: nat): Table {
    map slot | slot in full && Before(slot, bucket, pos) :: full[slot]
  }

  // A table that can be rebuilt over the entries of `base`.
  ghost predicate Fits(net: Network, base: State, full: Table) {
    && (forall slot | slot in full :: FitsAt(net, base, full, slot))
    && (forall k :: |Refs(full, k)| <= NEW_BUCKETS_PER_ADDRESS)
  }

  ghost predicate FitsAt(net: Network, base: State, full: Table, slot: Slot)
    requires slot in full
  {
    && slot.bucket < NEW_BUCKET_COUNT && slot.pos < BUCKET_SIZE
    && 0 <= full[slot] < base.nNew && full[slot] in base.mapInfo
    && slot == NewSlotIn(net, base.nKey, base.mapInfo[full[slot]].Service(), slot.bucket)
  }

  // `base` with the references of `table`, counted.
  ghost predicate Referenced(base: State, table: Table, r: State) {
    && r == base.(mapInfo := r.mapInfo, vvNew := table)
    && r.mapInfo.Keys == base.mapInfo.Keys
    && (forall k | k in base.mapInfo :: r.mapInfo[k] == base.mapInfo[k].(nRefCount := |Refs(table, k)|))
  }

  lemma UptoNext(full: Table, bucket: nat, pos: nat)
    ensures
      var slot := Slot(bucket, pos);
      && slot !in Upto(full, bucket, pos)
      && Upto(full, bucket, pos + 1)
         == if slot in full then Upto(full, bucket, pos)[slot := full[slot]] else Upto(full, bucket, pos)
  {
    var slot := Slot(bucket, pos);
    forall other
      ensures Before(other, bucket, pos + 1) <==> Before(other, bucket, pos) || other == slot
    {
    }
  }

  lemma UptoNextBucket(net: Network, base: State, full: Table, bucket: nat)
    requires Fits(net, base, full)
    ensures Upto(full, bucket, BUCKET_SIZE) == Upto(full, bucket + 1, 0)
  {
    forall slot | slot in full
      ensures Before(slot, bucket, BUCKET_SIZE) <==> Before(slot, bucket + 1, 0)
    {
      assert FitsAt(net, base, full, slot);
    }
  }

  lemma UptoAll(net: Network, base: State, full: Table)
    requires Fits(net, base, full)
    ensures Upto(full, NEW_BUCKET_COUNT, 0) == full && Upto(full, 0, 0) == map[]
  {
    forall slot | slot in full
      ensures Before(slot, NEW_BUCKET_COUNT, 0)
    {
      assert FitsAt(net, base, full, slot);
    }
  }

  // One written position puts the reference back into the slot it came from.
  lemma LoadRefStep(net: Network, base: State, full: Table, bucket: nat, pos: nat, r: State)
    requires Fits(net, base, full) && Slot(bucket, pos) in full
    requires Referenced(base, Upto(full, bucket, pos), r)
    ensures Referenced(base, Upto(full, bucket, pos + 1), LoadRef(net, r, bucket, full[Slot(bucket, pos)], true))
  {
    var slot := Slot(bucket, pos);
    var index := full[slot];
    var part := Upto(full, bucket, pos);
    UptoNext(full, bucket, pos);
    assert FitsAt(net, base, full, slot);
    assert index in r.mapInfo.Keys;
    assert |Refs(part, index)| < NEW_BUCKETS_PER_ADDRESS by {
      assert slot in Refs(full, index) && slot !in Refs(part, index);
      SubsetSize(Refs(part, index) + {slot}, Refs(full, index));
    }
    var next := LoadRef(net, r, bucket, index, true);
    assert next == AddRef(r, index, slot);
    assert next.mapInfo.Keys == base.mapInfo.Keys;
    forall k | k in base.mapInfo
      ensures next.mapInfo[k] == base.mapInfo[k].(nRefCount := |Refs(part[slot := index], k)|)
    {
      RefsAfterSet(part, slot, index, k);
    }
  }

  lemma {:induction false} SubsetSize(a: set<Slot>, b: set<Slot>)
    requires a <= b
    ensures |a| <= |b|
  {
    if a != {} {
      assert |a| > 0;
      var x :| x in a;
      SubsetSize(a - {x}, b - {x});
    }
  }

  lemma ReadBucketNext(net: Network, s: State, index: int, rest: seq<Token>, bucket: nat, n: nat, size: int)
    requires n < size
    ensures ReadBucket(net, s, [Num(index)] + rest, bucket, n, size, true)
         == ReadBucket(net, LoadRef(net, s, bucket, index, true), rest, bucket, n + 1, size, true)
  {
    assert ([Num(index)] + rest)[1..] == rest;
  }

  lemma BucketTokensNext(table: Table, unk: map<int, int>, bucket: nat, pos: nat, rest: seq<Token>)
    requires pos < BUCKET_SIZE
    ensures
      var full := Renamed(table, unk);
      var slot := Slot(bucket, pos);
      var later := BucketTokens(table, unk, bucket, pos + 1);
      BucketTokens(table, unk, bucket, pos) + rest
        == if slot in full then [Num(full[slot])] + (later + rest) else later + rest
  {
  }

  lemma {:induction false} ReadBucketLoads(net: Network, base: State, table: Table, unk: map<int, int>, bucket: nat,
                                           pos: nat, r: State, rest: seq<Token>, n: nat) returns (last: State)
    requires Fits(net, base, Renamed(table, unk)) && Referenced(base, Upto(Renamed(table, unk), bucket, pos), r)
    requires pos <= BUCKET_SIZE
    ensures Referenced(base, Upto(Renamed(table, unk), bucket, BUCKET_SIZE), last)
    ensures
      var tokens := BucketTokens(table, unk, bucket, pos);
      ReadBucket(net, r, tokens + rest, bucket, n, n + |tokens|, true) == Done(last, rest)
    decreases BUCKET_SIZE - pos
  {
    var full := Renamed(table, unk);
    var tokens := BucketTokens(table, unk, bucket, pos);
    var slot := Slot(bucket, pos);
    if pos == BUCKET_SIZE {
      hide Fits, Referenced, Upto, LoadRef, Renamed;
      assert tokens + rest == rest;
      last := r;
    } else {
      hide Fits, Referenced, Upto, LoadRef, ReadBucket, Renamed;
      BucketTokensNext(table, unk, bucket, pos, rest);
      BucketTokensNext(table, unk, bucket, pos, []);
      var later := BucketTokens(table, unk, bucket, pos + 1);
      assert tokens + [] == tokens && later + [] == later;
      if slot in full {
        LoadRefStep(net, base, full, bucket, pos, r);
        var next := LoadRef(net, r, bucket, full[slot], true);
        last := ReadBucketLoads(net, base, table, unk, bucket, pos + 1, next, rest, n + 1);
        ReadBucketNext(net, r, full[slot], later + rest, bucket, n, n + |tokens|);
      } else {
        UptoNext(full, bucket, pos);
        last := ReadBucketLoads(net, base, table, unk, bucket, pos + 1, r, rest, n);
      }
    }
  }

  lemma {:induction false} ReadTableLoads(net: Network, base: State, table: Table, unk: map<int, int>, bucket: nat,
                                          r: State) returns (last: State)
    requires Fits(net, base, Renamed(table, unk)) && Referenced(base, Upto(Renamed(table, unk), bucket, 0), r)
    requires bucket <= NEW_BUCKET_COUNT
    ensures Referenced(base, Upto(Renamed(table, unk), NEW_BUCKET_COUNT, 0), last)
    ensures ReadTable(net, r, TableTokens(table, unk, bucket), bucket, NEW_BUCKET_COUNT, true) == Done(last, [])
    decreases NEW_BUCKET_COUNT - bucket
  {
    hide Fits, Referenced, Upto, BucketTokens, ReadBucket;
    var full := Renamed(table, unk);
    if bucket == NEW_BUCKET_COUNT {
      last := r;
    } else {
      var rest := TableTokens(table, unk, bucket + 1);
      var tokens := BucketTokens(table, unk, bucket, 0);
      var next := ReadBucketLoads(net, base, table, unk, bucket, 0, r, rest, 0);
      UptoNextBucket(net, base, full, bucket);
      last := ReadTableLoads(net, base, table, unk, bucket + 1, next);
      var all := TableTokens(table, unk, bucket);
      assert all[0] == Num(|tokens|) && all[1..] == tokens + rest;
    }
  }

  lemma {:induction false} NothingPruned(s: State, ids: seq<int>)
    requires RandomLinked(s) && forall id :: !Prunable(s, id)
    ensures Prune(s, ids) == s
  {
    if ids != [] {
      NothingPruned(s, ids[1..]);
    }
  }

  // ------------------------------------------------------------------ round trip

  // The ids of s in the order they are written; the id all[i] becomes i.
  ghost function Written(s: State): seq<int> {
    SelectNew(s, Order(s.mapInfo.Keys)) + SelectTried(s, Order(s.mapInfo.Keys))
  }

  ghost function SavedEntries(s: State, ids: seq<int>): seq<Saved>
    requires forall i | 0 <= i < |ids| :: ids[i] in s.mapInfo
  {
    seq(|ids|, i requires 0 <= i < |ids| => Save(s.mapInfo[ids[i]]))
  }

  // An id is written with the new entries exactly when it is untried.
  lemma KindOf(net: Network, s: State, id: int)
    requires Inv(net, s) && id in s.mapInfo
    ensures IsNew(s, id) <==> !s.mapInfo[id].fInTried
  {
    assert Settled(net, s, id);
    if s.mapInfo[id].fInTried {
      forall slot | slot in s.vvNew
        ensures s.vvNew[slot] != id
      {
        assert NewPlacedAt(net, s, slot);
      }
      assert Refs(s.vvNew, id) == {};
    }
  }

  ghost predicate Distinct(ids: seq<int>) {
    forall i, j | 0 <= i < j < |ids| :: ids[i] != ids[j]
  }

  ghost predicate ListsSet(ids: seq<int>, elements: set<int>) {
    && (forall i | 0 <= i < |ids| :: ids[i] in elements)
    && (forall id | id in elements :: id in ids)
  }

  lemma ListsSetFrom(ids: seq<int>, elements: set<int>)
    requires forall id :: id in ids <==> id in elements
    ensures ListsSet(ids, elements)
  {
    forall i | 0 <= i < |ids|
      ensures ids[i] in elements
    {
      var id := ids[i];
      assert id in ids;
    }
  }

  lemma NewOrder(net: Network, s: State)
    requires Inv(net, s)
    ensures
      var newIds := SelectNew(s, Order(s.mapInfo.Keys));
      Distinct(newIds) && |newIds| == s.nNew && ListsSet(newIds, NewIds(s))
  {
    hide Between, CollisionsOccupied;
    var ids := Order(s.mapInfo.Keys);
    var newIds := SelectNew(s, ids);
    OrderComplete(s.mapInfo.Keys);
    SelectNewFacts(s, ids);
    forall id
      ensures id in newIds <==> id in NewIds(s)
    {
      if id in s.mapInfo {
        KindOf(net, s, id);
        assert id in s.mapInfo.Keys;
      }
    }
    DistinctSize(newIds, NewIds(s));
    ListsSetFrom(newIds, NewIds(s));
    CountsOf(net, s);
  }

  lemma TriedOrder(net: Network, s: State)
    requires Inv(net, s)
    ensures
      var triedIds := SelectTried(s, Order(s.mapInfo.Keys));
      Distinct(triedIds) && |triedIds| == s.nTried && ListsSet(triedIds, TriedIds(s))
  {
    hide Between, CollisionsOccupied;
    var ids := Order(s.mapInfo.Keys);
    var triedIds := SelectTried(s, ids);
    OrderComplete(s.mapInfo.Keys);
    SelectTriedFacts(s, ids);
    forall id
      ensures id in triedIds <==> id in TriedIds(s)
    {
      if id in s.mapInfo {
        assert id in s.mapInfo.Keys;
      }
    }
    DistinctSize(triedIds, TriedIds(s));
    ListsSetFrom(triedIds, TriedIds(s));
    CountsOf(net, s);
  }

  // Every id once: the untried ones before position `split`, the tried ones from there on.
  ghost predicate Lists(s: State, all: seq<int>, split: nat) {
    && Distinct(all)
    && (forall i | 0 <= i < |all| :: all[i] in s.mapInfo && (s.mapInfo[all[i]].fInTried <==> i >= split))
    && (forall id | id in s.mapInfo :: id in all)
  }

  // Every id is written once, first the nNew untried ones, then the nTried tried ones: the
  // asserts of Serialize hold.
  lemma WrittenFacts(net: Network, s: State)
    requires Inv(net, s)
    ensures |SelectNew(s, Order(s.mapInfo.Keys))| == s.nNew >= 0
    ensures |Written(s)| == s.nNew + s.nTried && Lists(s, Written(s), s.nNew)
  {
    hide Inv, SelectNew, SelectTried;
    NewOrder(net, s);
    TriedOrder(net, s);
    var newIds, triedIds := SelectNew(s, Order(s.mapInfo.Keys)), SelectTried(s, Order(s.mapInfo.Keys));
    forall id | id in s.mapInfo
      ensures id in Written(s)
    {
      assert id in NewIds(s) || id in TriedIds(s);
    }
  }

  lemma CountsOf(net: Network, s: State)
    requires Inv(net, s)
    ensures s.nNew == |NewIds(s)| && s.nTried == |TriedIds(s)|
  {
  }

  lemma AddrOf(net: Network, s: State, id: int)
    requires Inv(net, s) && id in s.mapInfo
    ensures s.mapInfo[id].Addr() in s.mapAddr && s.mapAddr[s.mapInfo[id].Addr()] == id
    ensures s.mapInfo[id].fInTried ==> Holds(s.vvTried, TriedSlot(net, s.nKey, s.mapInfo[id].Service()), id)
  {
    assert Settled(net, s, id);
  }

  lemma WrittenSeparate(net: Network, s: State, all: seq<int>, split: nat)
    requires Inv(net, s) && Lists(s, all, split)
    ensures Separate(net, s.nKey, SavedEntries(s, all), split)
  {
    hide Inv, TriedSlot;
    var saved := SavedEntries(s, all);
    forall i, j | 0 <= i < j < |saved|
      ensures saved[i].address.service.addr != saved[j].address.service.addr
    {
      AddrOf(net, s, all[i]);
      AddrOf(net, s, all[j]);
    }
    forall i, j | split <= i < j < |saved|
      ensures TriedSlot(net, s.nKey, saved[i].address.service) != TriedSlot(net, s.nKey, saved[j].address.service)
    {
      AddrOf(net, s, all[i]);
      AddrOf(net, s, all[j]);
    }
  }

  ghost function Index(s: State): map<int, int> {
    UnkIds(s, Order(s.mapInfo.Keys))
  }

  // mapUnkIds leads from an untried id to its place among the written ones.
  lemma IndexOf(net: Network, s: State, id: int)
    requires Inv(net, s) && id in NewIds(s)
    ensures id in Index(s) && 0 <= Index(s)[id] < s.nNew <= |Written(s)| && Written(s)[Index(s)[id]] == id
  {
    hide Between, CollisionsOccupied;
    KindOf(net, s, id);
    WrittenFacts(net, s);
    SelectNewFacts(s, Order(s.mapInfo.Keys));
    OrderComplete(s.mapInfo.Keys);
    assert id in s.mapInfo.Keys;
  }

  // The written table fits the loaded entries.
  lemma WrittenFits(net: Network, s: State, base: State)
    requires Inv(net, s) && s.nNew >= 0 && Lists(s, Written(s), s.nNew)
    requires LoadedTo(net, s.nKey, SavedEntries(s, Written(s)), s.nNew, |Written(s)|, base) && base.nNew == s.nNew
    ensures
      var full := Renamed(s.vvNew, Index(s));
      && Fits(net, base, full)
      && full.Keys == s.vvNew.Keys
      && forall slot | slot in full :: 0 <= full[slot] < |Written(s)| && Written(s)[full[slot]] == s.vvNew[slot]
  {
    hide Inv, Index, Written, LoadedTo, Lists;
    var full := Renamed(s.vvNew, Index(s));
    forall slot | slot in s.vvNew
      ensures slot in full && 0 <= full[slot] < |Written(s)| && Written(s)[full[slot]] == s.vvNew[slot]
      ensures FitsAt(net, base, full, slot)
    {
      SlotFits(net, s, base, slot);
    }
    forall k
      ensures |Refs(full, k)| <= NEW_BUCKETS_PER_ADDRESS
    {
      RenamedRefs(net, s, full, k);
    }
  }

  lemma SlotFits(net: Network, s: State, base: State, slot: Slot)
    requires Inv(net, s) && s.nNew >= 0 && Lists(s, Written(s), s.nNew) && slot in s.vvNew
    requires LoadedTo(net, s.nKey, SavedEntries(s, Written(s)), s.nNew, |Written(s)|, base) && base.nNew == s.nNew
    ensures
      var full := Renamed(s.vvNew, Index(s));
      && slot in full && 0 <= full[slot] < |Written(s)| && Written(s)[full[slot]] == s.vvNew[slot]
      && FitsAt(net, base, full, slot)
  {
    hide Inv, Index, Written, AddrsLoaded, TriedLoaded, NewSlotIn;
    NewOwner(net, s, slot);
    IndexOf(net, s, s.vvNew[slot]);
  }

  lemma NewOwner(net: Network, s: State, slot: Slot)
    requires Inv(net, s) && slot in s.vvNew
    ensures NewPlacedAt(net, s, slot) && s.vvNew[slot] in NewIds(s) && slot.pos < BUCKET_SIZE
  {
    assert NewPlacedAt(net, s, slot);
  }

  lemma RenamedRefs(net: Network, s: State, full: Table, k: int)
    requires Inv(net, s)
    requires full.Keys == s.vvNew.Keys
    requires forall slot | slot in full :: 0 <= full[slot] < |Written(s)| && Written(s)[full[slot]] == s.vvNew[slot]
    ensures |Refs(full, k)| <= NEW_BUCKETS_PER_ADDRESS
  {
    hide Written, AllSettled, RandomLinked, AddrLinked, TriedPlaced, CollisionsOccupied;
    if slot :| slot in Refs(full, k) {
      assert slot in s.vvNew.Keys;
      assert NewPlacedAt(net, s, slot);
      var id := s.vvNew[slot];
      forall other | other in Refs(full, k)
        ensures other in Refs(s.vvNew, id)
      {
        assert other in s.vvNew.Keys;
      }
      SubsetSize(Refs(full, k), Refs(s.vvNew, id));
    } else {
      assert Refs(full, k) == {};
    }
  }

  // Nothing is lost: r is s with the id all[i] renamed to i.
  ghost predicate SameUpTo(s: State, r: State, all: seq<int>) {
    && r.nKey == s.nKey && r.nNew == s.nNew && r.nTried == s.nTried && r.nIdCount == |all|
    && (forall id :: id in r.mapInfo <==> 0 <= id < |all|)
    && (forall i | 0 <= i < |all| :: all[i] in s.mapInfo && SameEntry(s.mapInfo[all[i]], r.mapInfo[i]))
    && SameTable(s.vvNew, r.vvNew, all)
    && SameTable(s.vvTried, r.vvTried, all)
    && (forall a | a in r.mapAddr :: 0 <= r.mapAddr[a] < |all| && a in s.mapAddr && all[r.mapAddr[a]] == s.mapAddr[a])
    && (forall a | a in s.mapAddr :: a in r.mapAddr)
  }

  ghost predicate SameEntry(a: Info, b: Info) {
    Save(a) == Save(b) && a.nRefCount == b.nRefCount && a.fInTried == b.fInTried
  }

  ghost predicate SameTable(t: Table, u: Table, all: seq<int>) {
    && u.Keys == t.Keys
    && (forall slot | slot in u :: 0 <= u[slot] < |all| && all[u[slot]] == t[slot])
  }

  // Entries and tried table, from what was loaded.
  lemma LoadedSame(net: Network, s: State, base: State, full: Table, r: State)
    requires Inv(net, s) && s.nNew >= 0 && Lists(s, Written(s), s.nNew) && |Written(s)| == s.nNew + s.nTried
    requires LoadedTo(net, s.nKey, SavedEntries(s, Written(s)), s.nNew, |Written(s)|, base)
    requires base.nNew == s.nNew && base.nTried == s.nTried && base.nIdCount == |Written(s)|
    requires Referenced(base, full, r) && SameTable(s.vvNew, full, Written(s))
    ensures SameUpTo(s, r, Written(s))
  {
    var all := Written(s);
    hide Inv, Written, SavedEntries, InfosLoaded, AddrsLoaded, TriedLoaded, SameTable, SameEntry;
    EntriesSame(net, s, base, full, r, all);
    TriedSame(net, s, base, all);
    AddrsSame(net, s, base, all);
  }

  lemma EntriesSame(net: Network, s: State, base: State, full: Table, r: State, all: seq<int>)
    requires Inv(net, s) && s.nNew >= 0 && Lists(s, all, s.nNew)
    requires InfosLoaded(SavedEntries(s, all), s.nNew, |all|, base)
    requires Referenced(base, full, r) && SameTable(s.vvNew, full, all)
    ensures forall id :: id in r.mapInfo <==> 0 <= id < |all|
    ensures forall i | 0 <= i < |all| :: SameEntry(s.mapInfo[all[i]], r.mapInfo[i])
  {
    hide Inv;
    forall id
      ensures id in r.mapInfo <==> 0 <= id < |all|
    {
      assert id in r.mapInfo.Keys <==> id in base.mapInfo.Keys;
    }
    forall i | 0 <= i < |all|
      ensures SameEntry(s.mapInfo[all[i]], r.mapInfo[i])
    {
      var id := all[i];
      forall slot
        ensures slot in Refs(full, i) <==> slot in Refs(s.vvNew, id)
      {
        assert slot in full.Keys <==> slot in s.vvNew.Keys;
        if slot in full {
          var k := full[slot];
          assert all[k] == s.vvNew[slot];
        }
      }
      assert Refs(full, i) == Refs(s.vvNew, id);
      CountOf(net, s, id);
    }
  }

  lemma CountOf(net: Network, s: State, id: int)
    requires Inv(net, s) && id in s.mapInfo
    ensures s.mapInfo[id].nRefCount == |Refs(s.vvNew, id)|
  {
  }

  lemma TriedSame(net: Network, s: State, base: State, all: seq<int>)
    requires Inv(net, s) && s.nNew >= 0 && Lists(s, all, s.nNew)
    requires TriedLoaded(net, s.nKey, SavedEntries(s, all), s.nNew, |all|, base)
    ensures SameTable(s.vvTried, base.vvTried, all)
  {
    hide Inv, TriedSlot;
    forall slot | slot in base.vvTried
      ensures slot in s.vvTried && 0 <= base.vvTried[slot] < |all| && all[base.vvTried[slot]] == s.vvTried[slot]
    {
      var i := base.vvTried[slot];
      AddrOf(net, s, all[i]);
    }
    forall slot | slot in s.vvTried
      ensures slot in base.vvTried
    {
      TriedAt(net, s, slot);
      var id := s.vvTried[slot];
      assert id in all;
      var i :| 0 <= i < |all| && all[i] == id;
      assert Holds(base.vvTried, TriedSlot(net, s.nKey, SavedEntries(s, all)[i].address.service), i);
    }
  }

  lemma TriedAt(net: Network, s: State, slot: Slot)
    requires Inv(net, s) && slot in s.vvTried
    ensures TriedPlacedAt(net, s, slot)
  {
  }

  lemma AddrsSame(net: Network, s: State, base: State, all: seq<int>)
    requires Inv(net, s) && Lists(s, all, s.nNew) && s.nNew >= 0
    requires AddrsLoaded(SavedEntries(s, all), |all|, base)
    ensures forall a | a in base.mapAddr ::
      0 <= base.mapAddr[a] < |all| && a in s.mapAddr && all[base.mapAddr[a]] == s.mapAddr[a]
    ensures forall a | a in s.mapAddr :: a in base.mapAddr
  {
    hide Inv;
    forall a | a in base.mapAddr
      ensures 0 <= base.mapAddr[a] < |all| && a in s.mapAddr && all[base.mapAddr[a]] == s.mapAddr[a]
    {
      var i := base.mapAddr[a];
      AddrOf(net, s, all[i]);
    }
    forall a | a in s.mapAddr
      ensures a in base.mapAddr
    {
      KnownAddr(net, s, a);
      var id := s.mapAddr[a];
      assert id in all;
      var i :| 0 <= i < |all| && all[i] == id;
      assert SavedEntries(s, all)[i].address.service.addr in base.mapAddr;
    }
  }

  lemma FlipTwice()
    ensures FlipBit30(FlipBit30(NEW_BUCKET_COUNT)) == NEW_BUCKET_COUNT
  {
  }

  // Reading what was written gives the manager back, whatever was there before.
  lemma ReadWritten(net: Network, s: State, prior: State) returns (r: State)
    requires Inv(net, s)
    ensures ReadAll(net, prior, Serialize(s)) == Done(r, [])
    ensures SameUpTo(s, r, Written(s)) && r.triedCollisions == prior.triedCollisions
    ensures |r.vRandom| == |Written(s)| && forall i | 0 <= i < |Written(s)| :: r.vRandom[i] == i && r.mapInfo[i].nRandomPos == i
  {
    hide Inv, SameUpTo, LoadedTo, Fits, Referenced, Separate, Lists, Order, SelectNew, SelectTried, UnkIds, TableTokens,
         ReadNew, ReadTried, ReadTable, SameTable;
    var ids := Order(s.mapInfo.Keys);
    SelectKnown(s, ids);
    WrittenFacts(net, s);
    var all := Written(s);
    ListsKnown(s, all, s.nNew);
    var saved := SavedEntries(s, all);
    WrittenSeparate(net, s, all, s.nNew);
    var tokens := Serialize(s);
    FlipTwice();
    var start := Clear(prior, s.nKey).(nNew := s.nNew, nTried := s.nTried);
    var newTokens, triedTokens := Entries(s, SelectNew(s, ids)), Entries(s, SelectTried(s, ids));
    var tableTokens := TableTokens(s.vvNew, UnkIds(s, ids), 0);
    assert tokens[6..] == newTokens + (triedTokens + tableTokens);
    StartLoaded(net, s, prior, saved);
    ReadNewLoads(net, s.nKey, saved, s.nNew, 0, start, newTokens, triedTokens + tableTokens);
    var withNew := ReadNew(net, start, tokens[6..], 0, s.nNew, true).state;
    IdCountIrrelevant(net, s.nKey, saved, s.nNew, s.nNew, withNew, s.nNew);
    ReadTriedLoads(net, s.nKey, saved, s.nNew, 0, withNew.(nIdCount := s.nNew), triedTokens, tableTokens);
    var base := ReadTried(net, withNew.(nIdCount := s.nNew), triedTokens + tableTokens, 0, s.nTried).state;
    WrittenFits(net, s, base);
    var full := Renamed(s.vvNew, UnkIds(s, ids));
    UptoAll(net, base, full);
    BaseReferenced(net, s.nKey, saved, s.nNew, |saved|, base);
    r := ReadTableLoads(net, base, s.vvNew, UnkIds(s, ids), 0, base);
    TableSame(s.vvNew, full, all);
    LoadedSame(net, s, base, full, r);
    PositionsKept(net, s.nKey, saved, s.nNew, base, full, r);
  }

  lemma ListsKnown(s: State, all: seq<int>, split: nat)
    requires Lists(s, all, split)
    ensures forall i | 0 <= i < |all| :: all[i] in s.mapInfo
  {
  }

  lemma TableSame(t: Table, u: Table, all: seq<int>)
    requires u.Keys == t.Keys
    requires forall slot | slot in u :: 0 <= u[slot] < |all| && all[u[slot]] == t[slot]
    ensures SameTable(t, u, all)
  {
  }

  lemma StartLoaded(net: Network, s: State, prior: State, saved: seq<Saved>)
    requires s.nNew >= 0
    ensures LoadedTo(net, s.nKey, saved, s.nNew, 0, Clear(prior, s.nKey).(nNew := s.nNew, nTried := s.nTried))
  {
  }

  lemma IdCountIrrelevant(net: Network, key: nat, saved: seq<Saved>, nNew: nat, n: nat, s: State, count: int)
    requires LoadedTo(net, key, saved, nNew, n, s)
    ensures LoadedTo(net, key, saved, nNew, n, s.(nIdCount := count))
  {
    hide TriedSlot;
  }

  lemma BaseReferenced(net: Network, key: nat, saved: seq<Saved>, nNew: nat, n: nat, base: State)
    requires LoadedTo(net, key, saved, nNew, n, base)
    ensures Referenced(base, map[], base)
  {
    hide AddrsLoaded, TriedLoaded;
    forall k | k in base.mapInfo
      ensures base.mapInfo[k] == base.mapInfo[k].(nRefCount := |Refs(map[], k)|)
    {
      assert Refs(map[], k) == {};
    }
  }

  lemma PositionsKept(net: Network, key: nat, saved: seq<Saved>, nNew: nat, base: State, full: Table, r: State)
    requires LoadedTo(net, key, saved, nNew, |saved|, base) && Referenced(base, full, r)
    ensures r.triedCollisions == base.triedCollisions && |r.vRandom| == |saved|
    ensures forall i | 0 <= i < |saved| :: i in r.mapInfo && r.vRandom[i] == i && r.mapInfo[i].nRandomPos == i
  {
    hide AddrsLoaded, TriedLoaded;
    forall i | 0 <= i < |saved|
      ensures i in r.mapInfo && r.vRandom[i] == i && r.mapInfo[i].nRandomPos == i
    {
      assert i in r.mapInfo.Keys <==> i in base.mapInfo.Keys;
    }
  }

  // ------------------------------------------------------------ the rebuilt state

  // Ids recorded before a manager was read name entries of it, and their tried slots are
  // occupied in it.
  ghost predicate StaleFits(net: Network, s: State, all: seq<int>, collisions: set<int>)
    requires forall i | 0 <= i < |all| :: all[i] in s.mapInfo
  {
    && |collisions| <= SET_TRIED_COLLISION_SIZE
    && forall id | id in collisions ::
         0 <= id < |all| && TriedSlot(net, s.nKey, s.mapInfo[all[id]].Service()) in s.vvTried
  }

  // A renamed copy satisfies the invariant, if the original does, exactly if the collisions
  // recorded in it fit.
  lemma CopyInvIff(net: Network, s: State, r: State, all: seq<int>)
    requires Inv(net, s) && SameUpTo(s, r, all) && Lists(s, all, s.nNew) && s.nNew >= 0 && RandomLinked(r)
    requires |all| == s.nNew + s.nTried
    ensures Inv(net, r) <==> StaleFits(net, s, all, r.triedCollisions)
  {
    hide Inv, RandomLinked, CollisionsOccupied, StaleFits;
    CopyAddrs(net, s, r, all);
    CopyTried(net, s, r, all);
    CopyNew(net, s, r, all);
    CopyCounts(net, s, r, all);
    CopySettled(net, s, r, all);
    CopyCollisions(net, s, r, all);
    CopyIsInv(net, r);
  }

  lemma CopyIsInv(net: Network, r: State)
    requires Coherent(net, r) && AllSettled(net, r, {})
    requires r.nTried == |TriedIds(r)| && r.nNew == |NewIds(r)|
    ensures Inv(net, r) <==> CollisionsOccupied(net, r) && |r.triedCollisions| <= SET_TRIED_COLLISION_SIZE
  {
    hide Coherent, AllSettled, CollisionsOccupied;
  }

  lemma CopyCollisions(net: Network, s: State, r: State, all: seq<int>)
    requires SameUpTo(s, r, all)
    ensures CollisionsOccupied(net, r) && |r.triedCollisions| <= SET_TRIED_COLLISION_SIZE <==>
            StaleFits(net, s, all, r.triedCollisions)
  {
    hide TriedSlot;
    forall id | 0 <= id < |all|
      ensures id in r.mapInfo
      ensures TriedSlot(net, r.nKey, r.mapInfo[id].Service()) in r.vvTried
         <==> TriedSlot(net, s.nKey, s.mapInfo[all[id]].Service()) in s.vvTried
    {
      CopySlot(net, s, r, all, id);
    }
  }

  lemma CopySlot(net: Network, s: State, r: State, all: seq<int>, id: int)
    requires SameUpTo(s, r, all) && 0 <= id < |all|
    ensures id in r.mapInfo
    ensures
      var slot := TriedSlot(net, s.nKey, s.mapInfo[all[id]].Service());
      TriedSlot(net, r.nKey, r.mapInfo[id].Service()) == slot && (slot in r.vvTried <==> slot in s.vvTried)
  {
    hide TriedSlot;
    assert SameEntry(s.mapInfo[all[id]], r.mapInfo[id]);
    var slot := TriedSlot(net, s.nKey, s.mapInfo[all[id]].Service());
    assert slot in r.vvTried.Keys <==> slot in s.vvTried.Keys;
  }

  // What SelectTriedCollision_ looks up for an id recorded before the manager was read: -1 exactly
  // if the entry that now has this id has an empty tried slot.
  lemma StaleLookup(net: Network, s: State, r: State, all: seq<int>, id: int)
    requires SameUpTo(s, r, all) && 0 <= id < |all|
    ensures id in r.mapInfo
    ensures
      LookedUp(net, r, id) == -1 <==> TriedSlot(net, s.nKey, s.mapInfo[all[id]].Service()) !in s.vvTried
  {
    CopySlot(net, s, r, all, id);
    hide TriedSlot;
    var slot := TriedSlot(net, r.nKey, r.mapInfo[id].Service());
    if slot in r.vvTried {
      assert 0 <= r.vvTried[slot] < |all|;
    }
  }

  lemma CopyAddrs(net: Network, s: State, r: State, all: seq<int>)
    requires Inv(net, s) && SameUpTo(s, r, all) && Lists(s, all, s.nNew) && s.nNew >= 0
    ensures AddrLinked(r) && IdsUsed(r)
  {
    hide Inv, SameTable;
    forall i | i in r.mapInfo
      ensures r.mapInfo[i].Addr() in r.mapAddr && r.mapAddr[r.mapInfo[i].Addr()] == i
    {
      var id := all[i];
      AddrOf(net, s, id);
      var k := r.mapAddr[r.mapInfo[i].Addr()];
      assert all[k] == all[i];
    }
    forall a | a in r.mapAddr
      ensures r.mapAddr[a] in r.mapInfo && r.mapInfo[r.mapAddr[a]].Addr() == a
    {
      KnownAddr(net, s, a);
      var i := r.mapAddr[a];
      assert SameEntry(s.mapInfo[all[i]], r.mapInfo[i]);
    }
  }

  lemma CopyTried(net: Network, s: State, r: State, all: seq<int>)
    requires Inv(net, s) && SameUpTo(s, r, all)
    ensures TriedPlaced(net, r)
  {
    hide Inv, TriedSlot;
    forall slot | slot in r.vvTried
      ensures TriedPlacedAt(net, r, slot)
    {
      assert slot in s.vvTried.Keys;
      TriedAt(net, s, slot);
      var i := r.vvTried[slot];
      assert SameEntry(s.mapInfo[all[i]], r.mapInfo[i]);
    }
  }

  lemma CopyNew(net: Network, s: State, r: State, all: seq<int>)
    requires Inv(net, s) && SameUpTo(s, r, all) && Lists(s, all, s.nNew) && s.nNew >= 0
    ensures NewPlaced(net, r) && RefsCounted(r)
  {
    hide Inv, NewSlotIn;
    forall slot | slot in r.vvNew
      ensures NewPlacedAt(net, r, slot)
    {
      assert slot in s.vvNew.Keys;
      NewOwner(net, s, slot);
      var i := r.vvNew[slot];
      assert SameEntry(s.mapInfo[all[i]], r.mapInfo[i]);
    }
    forall i | i in r.mapInfo
      ensures r.mapInfo[i].nRefCount == |Refs(r.vvNew, i)| <= NEW_BUCKETS_PER_ADDRESS
    {
      var id := all[i];
      CopyRefs(s.vvNew, r.vvNew, all, i);
      CountOf(net, s, id);
      CountInRange(net, s, id);
      assert SameEntry(s.mapInfo[id], r.mapInfo[i]);
    }
  }

  lemma CopyRefs(t: Table, u: Table, all: seq<int>, i: nat)
    requires SameTable(t, u, all) && Distinct(all) && i < |all|
    ensures Refs(u, i) == Refs(t, all[i])
  {
    forall slot
      ensures slot in Refs(u, i) <==> slot in Refs(t, all[i])
    {
      assert slot in u.Keys <==> slot in t.Keys;
      if slot in u {
        var k := u[slot];
        assert all[k] == t[slot];
      }
    }
  }

  lemma CopyCounts(net: Network, s: State, r: State, all: seq<int>)
    requires Inv(net, s) && SameUpTo(s, r, all) && Lists(s, all, s.nNew) && s.nNew >= 0
    requires |all| == s.nNew + s.nTried
    ensures r.nTried == |TriedIds(r)| && r.nNew == |NewIds(r)|
  {
    hide Inv, SameTable;
    CountsOf(net, s);
    forall i | 0 <= i < |all|
      ensures r.mapInfo[i].fInTried <==> i >= s.nNew
    {
      assert SameEntry(s.mapInfo[all[i]], r.mapInfo[i]);
    }
    forall i
      ensures i in NewIds(r) <==> 0 <= i < s.nNew
      ensures i in TriedIds(r) <==> s.nNew <= i < |all|
    {
    }
    IntervalSize(NewIds(r), 0, s.nNew);
    IntervalSize(TriedIds(r), s.nNew, |all|);
  }

  lemma {:induction false} IntervalSize(ids: set<int>, lo: int, hi: int)
    requires lo <= hi && forall i :: i in ids <==> lo <= i < hi
    ensures |ids| == hi - lo
    decreases hi - lo
  {
    if lo == hi {
      if ids != {} {
        var id := Member(ids);
        assert false;
      }
    } else {
      var last := hi - 1;
      assert last in ids;
      IntervalSize(ids - {last}, lo, hi - 1);
    }
  }

  lemma CopySettled(net: Network, s: State, r: State, all: seq<int>)
    requires Inv(net, s) && SameUpTo(s, r, all) && Lists(s, all, s.nNew) && s.nNew >= 0
    ensures AllSettled(net, r, {})
  {
    hide Inv, TriedSlot;
    forall i | i in r.mapInfo
      ensures Settled(net, r, i)
    {
      var id := all[i];
      KindOf(net, s, id);
      AddrOf(net, s, id);
      CountOf(net, s, id);
      assert SameEntry(s.mapInfo[id], r.mapInfo[i]);
      if s.mapInfo[id].fInTried {
        var slot := TriedSlot(net, s.nKey, s.mapInfo[id].Service());
        assert slot in r.vvTried.Keys;
        var k := r.vvTried[slot];
        assert all[k] == all[i];
      }
    }
  }

  // Unserialize after Serialize loses nothing: same key, addresses, slots and reference counts
  // up to renaming of ids, nothing lost to collisions, nothing pruned. The recorded collisions are
  // those from before: the invariant holds again exactly if their ids happen to fit.
  lemma RoundTrip(net: Network, s: State, prior: State) returns (r: State)
    requires Inv(net, s)
    ensures ReadAll(net, prior, Serialize(s)) == Done(r, [])
    ensures Unserialize(net, prior, Serialize(s)) == Some(r)
    ensures SameUpTo(s, r, Written(s)) && Lists(s, Written(s), s.nNew)
    ensures r.triedCollisions == prior.triedCollisions
    ensures Inv(net, r) <==> StaleFits(net, s, Written(s), prior.triedCollisions)
  {
    hide Inv, Written, Order, Lists, SameUpTo, ReadAll, Serialize, RandomLinked, StaleFits;
    r := ReadWritten(net, s, prior);
    WrittenFacts(net, s);
    var all := Written(s);
    InOrder(s, r, all);
    NoneUnreferenced(net, s, r, all);
    NothingPruned(r, Order(r.mapInfo.Keys));
    CopyInvIff(net, s, r, all);
  }

  lemma InOrder(s: State, r: State, all: seq<int>)
    requires SameUpTo(s, r, all) && |r.vRandom| == |all|
    requires forall i | 0 <= i < |all| :: r.vRandom[i] == i && r.mapInfo[i].nRandomPos == i
    ensures RandomLinked(r)
  {
    hide SameTable;
  }

  lemma NoneUnreferenced(net: Network, s: State, r: State, all: seq<int>)
    requires Inv(net, s) && SameUpTo(s, r, all)
    ensures forall i :: !Prunable(r, i)
  {
    hide Inv, SameTable;
    forall i
      ensures !Prunable(r, i)
    {
      if i in r.mapInfo {
        var id := all[i];
        KindOf(net, s, id);
        assert SameEntry(s.mapInfo[id], r.mapInfo[i]);
      }
    }
  }

  // ----------------------------------------------------------------------- Clear

  // Clear resets the id counter but not the recorded collisions, so that old ids can name new
  // entries: it leads to a state with the invariant exactly when there were none.
  lemma ClearKeepsIff(net: Network, s: State, key: nat)
    requires Inv(net, s)
    ensures Inv(net, Clear(s, key)) <==> s.triedCollisions == {}
  {
    hide Between;
    if s.triedCollisions == {} {
      FreshInv(net, key);
    } else {
      var id := Member(s.triedCollisions);
      assert id >= 0;
    }
  }

  // ------------------------------------------------------------ arbitrary streams

  // vRandom is in step with mapInfo while reading, whatever the stream holds.
  ghost predicate Loading(s: State, next: int) {
    RandomLinked(s) && forall id | id in s.mapInfo :: id < next
  }

  lemma LoadNewLinked(net: Network, s: State, saved: Saved, n: nat, usable: bool)
    requires Loading(s, n)
    ensures Loading(LoadNew(net, s, saved, n, usable), n + 1)
  {
    hide NewSlot;
  }

  lemma LoadTriedLinked(net: Network, s: State, saved: Saved)
    requires Loading(s, s.nIdCount)
    ensures Loading(LoadTried(net, s, saved), LoadTried(net, s, saved).nIdCount)
  {
    hide TriedSlot;
  }

  lemma LoadRefLinked(net: Network, s: State, bucket: nat, index: int, usable: bool)
    requires RandomLinked(s)
    ensures RandomLinked(LoadRef(net, s, bucket, index, usable))
  {
    hide NewSlotIn;
  }

  lemma {:induction false} ReadNewLinked(net: Network, s: State, tokens: seq<Token>, n: nat, count: int, usable: bool)
    requires Loading(s, n) && n <= count
    ensures
      var read := ReadNew(net, s, tokens, n, count, usable);
      read.Done? ==> Loading(read.state, count)
    decreases count - n
  {
    hide Loading, LoadNew;
    if n < count && tokens != [] && tokens[0].Entry? {
      LoadNewLinked(net, s, tokens[0].saved, n, usable);
      ReadNewLinked(net, LoadNew(net, s, tokens[0].saved, n, usable), tokens[1..], n + 1, count, usable);
    }
  }

  lemma {:induction false} ReadTriedLinked(net: Network, s: State, tokens: seq<Token>, n: nat, count: int)
    requires Loading(s, s.nIdCount)
    ensures
      var read := ReadTried(net, s, tokens, n, count);
      read.Done? ==> Loading(read.state, read.state.nIdCount)
    decreases count - n
  {
    hide Loading, LoadTried;
    if n < count && tokens != [] && tokens[0].Entry? {
      LoadTriedLinked(net, s, tokens[0].saved);
      ReadTriedLinked(net, LoadTried(net, s, tokens[0].saved), tokens[1..], n + 1, count);
    }
  }

  lemma {:induction false} ReadBucketLinked(net: Network, s: State, tokens: seq<Token>, bucket: nat, n: nat, size: int,
                                            usable: bool)
    requires RandomLinked(s)
    ensures
      var read := ReadBucket(net, s, tokens, bucket, n, size, usable);
      read.Done? ==> RandomLinked(read.state)
    decreases size - n
  {
    hide RandomLinked, LoadRef;
    if n < size && tokens != [] && tokens[0].Num? {
      LoadRefLinked(net, s, bucket, tokens[0].n, usable);
      ReadBucketLinked(net, LoadRef(net, s, bucket, tokens[0].n, usable), tokens[1..], bucket, n + 1, size, usable);
    }
  }

  lemma {:induction false} ReadTableLinked(net: Network, s: State, tokens: seq<Token>, bucket: nat, buckets: int,
                                           usable: bool)
    requires RandomLinked(s)
    ensures
      var read := ReadTable(net, s, tokens, bucket, buckets, usable);
      read.Done? ==> RandomLinked(read.state)
    decreases buckets - bucket
  {
    hide RandomLinked, ReadBucket;
    if bucket < buckets && tokens != [] && tokens[0].Num? {
      ReadBucketLinked(net, s, tokens[1..], bucket, 0, tokens[0].n, usable);
      match ReadBucket(net, s, tokens[1..], bucket, 0, tokens[0].n, usable)
      case Failed =>
      case Done(next, rest) => ReadTableLinked(net, next, rest, bucket + 1, buckets, usable);
    }
  }

  // Whatever the stream, the entries to be pruned can be deleted.
  lemma ReadAllLinked(net: Network, prior: State, tokens: seq<Token>)
    ensures
      var read := ReadAll(net, prior, tokens);
      read.Done? ==> RandomLinked(read.state)
  {
    if HeaderOk(tokens) {
      var buckets := BucketCount(tokens);
      var usable := Usable(tokens[0].n, buckets);
      var start := Started(prior, tokens);
      assert Loading(start, 0);
      if start.nNew >= 0 {
        ReadNewLinked(net, start, tokens[6..], 0, start.nNew, usable);
      }
      match ReadNew(net, start, tokens[6..], 0, start.nNew, usable)
      case Failed =>
      case Done(withNew, rest) =>
        var counted := withNew.(nIdCount := start.nNew);
        assert Loading(counted, counted.nIdCount);
        ReadTriedLinked(net, counted, rest, 0, start.nTried);
        match ReadTried(net, counted, rest, 0, start.nTried)
        case Failed =>
        case Done(withTried, rest') => ReadTableLinked(net, withTried, rest', 0, buckets, usable);
    }
  }

  ghost function Unserialize(net: Network, prior: State, tokens: seq<Token>): Option<State> {
    ReadAllLinked(net, prior, tokens);
    match ReadAll(net, prior, tokens)
    case Failed => None
    case Done(s, _) => Some(Prune(s, Order(s.mapInfo.Keys)))
  }
}
