/**
 The rolling bloom filter of src/bloom.cpp and src/bloom.h: two-bit cells that hold the number
 of a generation, packed sixteen to a word. Sizes and the hash are parameters.
 */
module RollingBloom {
  import opened Arith

  // ---------------------------------------------------------------- packed cells

  // 2 * k for a cell k of a word.
  function Offset(k: nat): (s: bv32)
    requires k < 16
    ensures s <= 30 && s & 1 == 0
  {
    match k
    case 0 => 0 case 1 => 2 case 2 => 4 case 3 => 6 case 4 => 8 case 5 => 10 case 6 => 12 case 7 => 14
    case 8 => 16 case 9 => 18 case 10 => 20 case 11 => 22 case 12 => 24 case 13 => 26 case 14 => 28 case 15 => 30
  }

  lemma OffsetsApart(j: nat, k: nat)
    requires j < 16 && k < 16
    ensures Offset(j) == Offset(k) <==> j == k
  {
  }

  function Read(w: bv32, s: bv32): bv32
    requires s <= 30
  {
    (w >> s) & 3
  }

  function Written(w: bv32, s: bv32, v: bv32): bv32
    requires s <= 30
  {
    (w & !(3 << s)) | (v << s)
  }

  lemma ReadWritten(w: bv32, s: bv32, t: bv32, v: bv32)
    requires s <= 30 && s & 1 == 0 && t <= 30 && t & 1 == 0 && v < 4
    ensures Read(Written(w, s, v), t) == if s == t then v else Read(w, t)
  {
  }

  // A cell holds 0 to 3.
  function FromBits(b: bv32): (v: nat)
    ensures v < 4
  {
    if b == 0 then 0 else if b == 1 then 1 else if b == 2 then 2 else 3
  }

  function ToBits(v: nat): (b: bv32)
    requires v < 4
    ensures b < 4 && FromBits(b) == v
  {
    if v == 0 then 0 else if v == 1 then 1 else if v == 2 then 2 else 3
  }

  // ------------------------------------------------------------------- generations

  type Key = seq<nat>

  // The positions a key sets.
  type Positions = Key -> set<nat>

  // The generation of the i-th key, counted from zero; a generation has g keys.
  function GenerationOf(i: nat, g: nat): nat
    requires g > 0
  {
    DivMod(i, g);
    i / g
  }

  // The generation a filter is in after n keys.
  function Age(n: nat, g: nat): nat
    requires g > 0
  {
    if n == 0 then 0 else GenerationOf(n - 1, g)
  }

  // How many keys the current generation has after n keys.
  function InThisGeneration(n: nat, g: nat): nat
    requires g > 0
  {
    n - Age(n, g) * g
  }

  // The label a generation is stored under.
  function Label(a: nat): (l: nat)
    ensures 1 <= l <= 3
  {
    1 + a % 3
  }

  lemma AgeNext(n: nat, g: nat)
    requires g > 0
    ensures 0 <= InThisGeneration(n, g) <= g && (n > 0 ==> InThisGeneration(n, g) > 0)
    ensures InThisGeneration(n, g) == g ==> Age(n + 1, g) == Age(n, g) + 1 && InThisGeneration(n + 1, g) == 1
    ensures InThisGeneration(n, g) < g ==>
      Age(n + 1, g) == Age(n, g) && InThisGeneration(n + 1, g) == InThisGeneration(n, g) + 1
  {
    if n > 0 {
      DivMod(n - 1, g);
      var q := (n - 1) / g;
      var m := n - q * g;
      if m == g {
        assert n == 0 + (q + 1) * g;
        ModIs(0, q + 1, g);
        Distribute(q, 1, g);
      } else {
        ModIs(m, q, g);
      }
    } else {
      ModIs(0, 0, g);
    }
  }

  lemma LabelNext(a: nat)
    ensures Label(a + 1) == if Label(a) + 1 == 4 then 1 else Label(a) + 1
    ensures Label(a + 3) == Label(a) && Label(a + 2) != Label(a) && Label(a + 1) != Label(a)
  {
  }

  // ------------------------------------------------------------- what a cell holds

  // The last key that set a position, or -1.
  function Latest(at: Positions, keys: seq<Key>, p: nat): (i: int)
    ensures -1 <= i < |keys|
    ensures i >= 0 ==> p in at(keys[i])
    ensures forall j | i < j < |keys| :: p !in at(keys[j])
  {
    if keys == [] then -1
    else if p in at(keys[|keys| - 1]) then |keys| - 1
    else Latest(at, keys[..|keys| - 1], p)
  }

  // The cell after these keys: the label of the last generation that set it, if that is the
  // current one or one of the two before it.
  function Cell(at: Positions, keys: seq<Key>, g: nat, p: nat): (v: nat)
    requires g > 0
    ensures v <= 3
  {
    var i := Latest(at, keys, p);
    if i < 0 || GenerationOf(i, g) + 2 < Age(|keys|, g) then 0 else Label(GenerationOf(i, g))
  }

  // A cell as a generation begins: the label is about to be used again.
  function Wiped(v: nat, mark: nat): nat { if v == mark then 0 else v }

  lemma {:induction false} GenerationBelow(i: nat, n: nat, g: nat)
    requires g > 0 && i < n
    ensures GenerationOf(i, g) <= Age(n, g)
  {
    DivMod(i, g);
    DivAtLeast(n - 1, g, i / g);
  }

  // One more key: if it begins a generation the cells of its label are wiped, then its own
  // positions are set.
  lemma CellNext(at: Positions, keys: seq<Key>, g: nat, key: Key, p: nat)
    requires g > 0
    ensures
      var n := |keys|;
      var mark := Label(Age(n + 1, g));
      var before := Cell(at, keys, g, p);
      var wiped := if InThisGeneration(n, g) == g then Wiped(before, mark) else before;
      Cell(at, keys + [key], g, p) == if p in at(key) then mark else wiped
  {
    var n := |keys|;
    AgeNext(n, g);
    assert (keys + [key])[..n] == keys;
    var i := Latest(at, keys, p);
    assert Latest(at, keys + [key], p) == if p in at(key) then n else i;
    if i >= 0 {
      GenerationBelow(i, n, g);
      if Age(n, g) <= GenerationOf(i, g) + 2 {
        CellAges(GenerationOf(i, g), Age(n, g));
      }
    }
    assert Age(n + 1, g) == GenerationOf(n, g);
  }

  // A generation's label comes up again exactly three generations later.
  lemma CellAges(a: nat, age: nat)
    requires a <= age <= a + 2
    ensures a + 2 < age + 1 <==> Label(a) == Label(age + 1)
  {
    LabelNext(a);
  }

  // -------------------------------------------------------------------- membership

  // The first of the keys the filter still stands for.
  function WindowStart(n: nat, g: nat): int
    requires g > 0
  {
    (Age(n, g) - 2) * g
  }

  lemma GenerationInWindow(i: nat, n: nat, g: nat)
    requires g > 0 && i < n
    ensures GenerationOf(i, g) + 2 >= Age(n, g) <==> i >= WindowStart(n, g)
  {
    var a := Age(n, g);
    if a >= 2 {
      DivAtLeast(i, g, a - 2);
    } else {
      MulMonotone(0, 2 - a, 0, g);
      assert (a - 2) * g == -((2 - a) * g);
    }
  }

  // A cell is set exactly when a key of the window set it.
  lemma CellSetIff(at: Positions, keys: seq<Key>, g: nat, p: nat)
    requires g > 0
    ensures Cell(at, keys, g, p) != 0 <==> exists i | 0 <= i < |keys| :: i >= WindowStart(|keys|, g) && p in at(keys[i])
  {
    var i := Latest(at, keys, p);
    if i >= 0 {
      GenerationInWindow(i, |keys|, g);
    }
  }

  // The window covers the last two full generations and the current one.
  lemma WindowCovers(n: nat, g: nat)
    requires g > 0
    ensures n - WindowStart(n, g) == 2 * g + InThisGeneration(n, g)
    ensures n > 0 ==> n - WindowStart(n, g) > 2 * g
  {
    AgeNext(n, g);
    Distribute(Age(n, g), -2, g);
  }

  // --------------------------------------------------- filters of any generation size

  // With generations of no keys the first key begins the second generation, which never ends.
  function MarkOf(n: nat, g: nat): (l: nat)
    ensures 1 <= l <= 3
  {
    if g == 0 then (if n == 0 then 1 else 2) else Label(Age(n, g))
  }

  function EntriesOf(n: nat, g: nat): int {
    if g == 0 then n else InThisGeneration(n, g)
  }

  function CellOf(at: Positions, keys: seq<Key>, g: nat, p: nat): (v: nat)
    ensures v <= 3
  {
    if g > 0 then Cell(at, keys, g, p) else if Latest(at, keys, p) < 0 then 0 else 2
  }

  function NextMark(m: nat): nat { if m + 1 == 4 then 1 else m + 1 }

  // What insert does to the counters and to each cell.
  lemma InsertNext(at: Positions, keys: seq<Key>, g: nat, key: Key, p: nat)
    ensures
      var n := |keys|;
      var rolls := EntriesOf(n, g) == g;
      && EntriesOf(n + 1, g) == (if rolls then 1 else EntriesOf(n, g) + 1)
      && MarkOf(n + 1, g) == (if rolls then NextMark(MarkOf(n, g)) else MarkOf(n, g))
      && var before := CellOf(at, keys, g, p);
         var wiped := if rolls then Wiped(before, MarkOf(n + 1, g)) else before;
         CellOf(at, keys + [key], g, p) == if p in at(key) then MarkOf(n + 1, g) else wiped
  {
    var n := |keys|;
    if g > 0 {
      AgeNext(n, g);
      LabelNext(Age(n, g));
      CellNext(at, keys, g, key, p);
    } else {
      assert (keys + [key])[..n] == keys;
    }
  }

  ghost predicate InWindow(i: nat, n: nat, g: nat) {
    g > 0 ==> i >= WindowStart(n, g)
  }

  lemma CellOfSetIff(at: Positions, keys: seq<Key>, g: nat, p: nat)
    ensures CellOf(at, keys, g, p) != 0 <==> exists i | 0 <= i < |keys| :: InWindow(i, |keys|, g) && p in at(keys[i])
  {
    var i := Latest(at, keys, p);
    if g > 0 {
      CellSetIff(at, keys, g, p);
      if Cell(at, keys, g, p) != 0 {
        var j :| 0 <= j < |keys| && j >= WindowStart(|keys|, g) && p in at(keys[j]);
        assert InWindow(j, |keys|, g);
      }
    } else if i >= 0 {
      assert InWindow(i, |keys|, g);
    }
  }

  ghost predicate ContainsKey(at: Positions, keys: seq<Key>, g: nat, key: Key) {
    forall p | p in at(key) :: CellOf(at, keys, g, p) != 0
  }

  // A key is reported exactly when each of its positions was set by some key of the window.
  lemma ContainsIff(at: Positions, keys: seq<Key>, g: nat, key: Key)
    ensures
      ContainsKey(at, keys, g, key) <==>
        forall p | p in at(key) :: exists i | 0 <= i < |keys| :: InWindow(i, |keys|, g) && p in at(keys[i])
  {
    forall p | p in at(key)
      ensures CellOf(at, keys, g, p) != 0 <==> exists i | 0 <= i < |keys| :: InWindow(i, |keys|, g) && p in at(keys[i])
    {
      CellOfSetIff(at, keys, g, p);
    }
  }

  // The last two full generations and the current one are always reported.
  lemma LastKeysContained(at: Positions, keys: seq<Key>, g: nat, i: nat)
    requires i < |keys| && (g > 0 ==> i >= |keys| - 2 * g - InThisGeneration(|keys|, g))
    ensures ContainsKey(at, keys, g, keys[i])
  {
    if g > 0 {
      WindowCovers(|keys|, g);
    }
    assert InWindow(i, |keys|, g);
    forall p | p in at(keys[i])
      ensures CellOf(at, keys, g, p) != 0
    {
      CellOfSetIff(at, keys, g, p);
    }
  }

  // So are the last nElements keys, of which a generation takes half.
  lemma LastElementsContained(at: Positions, keys: seq<Key>, nElements: nat, i: nat)
    requires |keys| - nElements <= i < |keys|
    ensures ContainsKey(at, keys, (nElements + 1) / 2, keys[i])
  {
    var g := (nElements + 1) / 2;
    if g > 0 {
      AgeNext(|keys|, g);
    }
    LastKeysContained(at, keys, g, i);
  }

  // --------------------------------------------------------------------- the class

  // MurmurHash3 of a key under a seed.
  type Murmur = (nat, nat, Key) -> nat

  function Position(hash: Murmur, tweak: nat, n: nat, key: Key, size: nat): (p: nat)
    requires size > 0
    ensures p < size
  {
    hash(tweak, n, key) % size
  }

  ghost function SetBy(hash: Murmur, tweak: nat, funcs: nat, size: nat): Positions
    requires size > 0
  {
    (key: Key) => set n: nat | 0 <= n < funcs :: Position(hash, tweak, n, key, size)
  }

  // Directly on the hash: a key is reported exactly if each of its hashes falls, modulo the size, where
  // some hash of a key of the window falls; the window is the current generation, which has between one
  // and g keys, and the two before it.
  lemma ReportedIff(hash: Murmur, tweak: nat, funcs: nat, size: nat, keys: seq<Key>, g: nat, key: Key)
    requires size > 0 && g > 0 && keys != []
    ensures
      var kept := 2 * g + 1 + (|keys| - 1) % g;
      ContainsKey(SetBy(hash, tweak, funcs, size), keys, g, key) <==>
        forall n: nat | n < funcs :: Hit(hash, tweak, funcs, size, keys, kept, hash(tweak, n, key) % size)
  {
    var at := SetBy(hash, tweak, funcs, size);
    var kept := 2 * g + 1 + (|keys| - 1) % g;
    WindowCovers(|keys|, g);
    KeysNow(|keys|, g);
    hide WindowStart, InThisGeneration, CellOf;
    forall p: nat
      ensures CellOf(at, keys, g, p) != 0 <==> Hit(hash, tweak, funcs, size, keys, kept, p)
    {
      CellOfSetIff(at, keys, g, p);
      HitIff(hash, tweak, funcs, size, keys, g, kept, p);
    }
    forall n: nat | n < funcs
      ensures hash(tweak, n, key) % size in at(key)
    {
      assert Position(hash, tweak, n, key, size) in at(key);
    }
  }

  // One of the last `kept` keys sets the position.
  ghost predicate Hit(hash: Murmur, tweak: nat, funcs: nat, size: nat, keys: seq<Key>, kept: nat, p: nat)
    requires size > 0
  {
    exists i, m: nat | 0 <= i < |keys| && m < funcs :: i >= |keys| - kept && hash(tweak, m, keys[i]) % size == p
  }

  lemma KeysNow(n: nat, g: nat)
    requires n > 0 && g > 0
    ensures InThisGeneration(n, g) == 1 + (n - 1) % g
  {
    DivMod(n - 1, g);
  }

  lemma HitIff(hash: Murmur, tweak: nat, funcs: nat, size: nat, keys: seq<Key>, g: nat, kept: nat, p: nat)
    requires size > 0 && g > 0 && |keys| - WindowStart(|keys|, g) == kept
    ensures
      var at := SetBy(hash, tweak, funcs, size);
      Hit(hash, tweak, funcs, size, keys, kept, p) <==>
        exists i | 0 <= i < |keys| :: InWindow(i, |keys|, g) && p in at(keys[i])
  {
    hide WindowStart;
    var at := SetBy(hash, tweak, funcs, size);
    forall i, m: nat | 0 <= i < |keys| && m < funcs && i >= |keys| - kept && hash(tweak, m, keys[i]) % size == p
      ensures InWindow(i, |keys|, g) && p in at(keys[i])
    {
      assert Position(hash, tweak, m, keys[i], size) == p;
    }
    forall i | 0 <= i < |keys| && InWindow(i, |keys|, g) && p in at(keys[i])
      ensures Hit(hash, tweak, funcs, size, keys, kept, p)
    {
      var m: nat :| m < funcs && Position(hash, tweak, m, keys[i], size) == p;
      assert hash(tweak, m, keys[i]) % size == p;
    }
  }

  // After a reset nothing is reported.
  lemma NothingReported(hash: Murmur, tweak: nat, funcs: nat, size: nat, g: nat, key: Key)
    requires size > 0 && funcs > 0
    ensures !ContainsKey(SetBy(hash, tweak, funcs, size), [], g, key)
  {
    var at := SetBy(hash, tweak, funcs, size);
    assert Position(hash, tweak, 0, key, size) in at(key);
    CellOfSetIff(at, [], g, Position(hash, tweak, 0, key, size));
  }

  class Filter {
    const hash: Murmur
    const nHashFuncs: nat
    const nEntriesPerGeneration: nat
    const data: array<bv32>
    var nTweak: nat
    var nGeneration: nat
    var nEntriesThisGeneration: nat
    // The keys inserted since the last reset.
    ghost var keys: seq<Key>

    function Size(): nat { 16 * data.Length }

    function Get(p: nat): (v: nat)
      requires data.Length > 0
      reads data
      ensures v < 4
    {
      FromBits(Read(data[WordOf(p, data.Length)], Offset(p % 16)))
    }

    method Put(p: nat, v: nat)
      requires p < Size() && v < 4
      modifies data
      ensures Get(p) == v && forall q: nat | q < Size() && q != p :: Get(q) == old(Get(q))
    {
      hide Read, Written, Offset, FromBits, WordOf;
      var i, s := WordOf(p, data.Length), Offset(p % 16);
      data[i] := Written(data[i], s, ToBits(v));
      forall q: nat | q < Size()
        ensures Get(q) == if q == p then v else old(Get(q))
      {
        ReadWritten(old(data[i]), s, Offset(q % 16), ToBits(v));
        if q != p {
          CellsApart(p, q, data.Length);
        }
      }
    }

    ghost function At(): Positions
      requires Size() > 0
      reads this
    {
      SetBy(hash, nTweak, nHashFuncs, Size())
    }

    // Every cell is what the keys say it should be.
    ghost predicate Valid()
      reads this, data
    {
      && data.Length > 0
      && nGeneration == MarkOf(|keys|, nEntriesPerGeneration)
      && nEntriesThisGeneration == EntriesOf(|keys|, nEntriesPerGeneration)
      && forall p: nat | p < Size() :: Get(p) == CellOf(At(), keys, nEntriesPerGeneration, p)
    }

    constructor (murmur: Murmur, funcs: nat, nElements: nat, words: nat, tweak: nat)
      requires words > 0
      ensures Valid() && keys == [] && fresh(data)
      ensures nEntriesPerGeneration == (nElements + 1) / 2 && nHashFuncs == funcs && hash == murmur && nTweak == tweak
    {
      hash, nHashFuncs, nEntriesPerGeneration := murmur, funcs, (nElements + 1) / 2;
      data := new bv32[words](_ => 0);
      keys := [];
      nGeneration, nEntriesThisGeneration := 1, 0;
      nTweak := tweak;
      new;
      Reset(tweak);
    }

    method Reset(tweak: nat)
      requires data.Length > 0
      modifies this, data
      ensures Valid() && keys == [] && nTweak == tweak
    {
      nTweak, nEntriesThisGeneration, nGeneration, keys := tweak, 0, 1, [];
      for i := 0 to data.Length
        invariant forall j | 0 <= j < i :: data[j] == 0
        invariant nTweak == tweak && nEntriesThisGeneration == 0 && nGeneration == 1 && keys == []
      {
        data[i] := 0;
      }
      forall p: nat | p < Size()
        ensures Get(p) == CellOf(At(), keys, nEntriesPerGeneration, p)
      {
        NothingRead(Offset(p % 16));
      }
    }

    // Cells of a label are given up.
    method Wipe(mark: nat)
      requires data.Length > 0
      modifies data
      ensures forall p: nat | p < Size() :: Get(p) == Wiped(old(Get(p)), mark)
    {
      for p := 0 to Size()
        invariant forall q: nat | q < Size() :: Get(q) == if q < p then Wiped(old(Get(q)), mark) else old(Get(q))
      {
        if Get(p) == mark {
          Put(p, 0);
        }
      }
    }

    method Mark(key: Key, mark: nat)
      requires data.Length > 0 && mark < 4
      modifies data
      ensures forall p: nat | p < Size() :: Get(p) == if p in At()(key) then mark else old(Get(p))
    {
      for n := 0 to nHashFuncs
        invariant forall p: nat | p < Size() ::
            Get(p) == if exists m: nat | m < n :: Position(hash, nTweak, m, key, Size()) == p then mark else old(Get(p))
      {
        Put(Position(hash, nTweak, n, key, Size()), mark);
      }
    }

    // A full generation gives way to the next one.
    method Roll()
      requires data.Length > 0 && 1 <= nGeneration <= 3
      modifies `nGeneration, `nEntriesThisGeneration, data
      ensures
        var rolls := old(nEntriesThisGeneration) == nEntriesPerGeneration;
        && nEntriesThisGeneration == (if rolls then 0 else old(nEntriesThisGeneration))
        && nGeneration == (if rolls then NextMark(old(nGeneration)) else old(nGeneration))
        && forall p: nat | p < Size() :: Get(p) == if rolls then Wiped(old(Get(p)), nGeneration) else old(Get(p))
    {
      if nEntriesThisGeneration == nEntriesPerGeneration {
        nEntriesThisGeneration := 0;
        nGeneration := nGeneration + 1;
        if nGeneration == 4 {
          nGeneration := 1;
        }
        Wipe(nGeneration);
      }
    }

    method Insert(key: Key)
      requires Valid()
      modifies this, data
      ensures Valid() && keys == old(keys) + [key] && nTweak == old(nTweak)
    {
      hide CellOf, MarkOf, EntriesOf, SetBy, Read;
      ghost var at, was, g := At(), keys, nEntriesPerGeneration;
      InsertNext(at, was, g, key, 0);
      Roll();
      nEntriesThisGeneration := nEntriesThisGeneration + 1;
      Mark(key, nGeneration);
      keys := keys + [key];
      forall p: nat | p < Size()
        ensures Get(p) == CellOf(At(), keys, g, p)
      {
        InsertNext(at, was, g, key, p);
      }
    }

    method Contains(key: Key) returns (r: bool)
      requires Valid()
      ensures r <==> ContainsKey(At(), keys, nEntriesPerGeneration, key)
    {
      for n := 0 to nHashFuncs
        invariant forall m: nat | m < n :: Get(Position(hash, nTweak, m, key, Size())) != 0
      {
        var h := Position(hash, nTweak, n, key, Size());
        if Get(h) == 0 {
          assert h in At()(key);
          return false;
        }
      }
      return true;
    }
  }

  // (p >> 4) % n
  function WordOf(p: nat, n: nat): (i: nat)
    requires n > 0
    ensures i < n
  {
    (p / 16) % n
  }

  // Two positions never share a cell.
  lemma CellsApart(p: nat, q: nat, n: nat)
    requires p < 16 * n && q < 16 * n && p != q
    ensures WordOf(p, n) != WordOf(q, n) || Offset(p % 16) != Offset(q % 16)
  {
    hide Offset;
    ModIs(p / 16, 0, n);
    ModIs(q / 16, 0, n);
    OffsetsApart(p % 16, q % 16);
  }

  lemma NothingRead(s: bv32)
    requires s <= 30
    ensures FromBits(Read(0, s)) == 0
  {
  }
}
