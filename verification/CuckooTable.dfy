/**
 The classes of src/cuckoocache.h: the bit-packed garbage flags and the cache whose methods
 update its table in place. Every method is proved against the functions of module Cuckoo.
 */
module CuckooTable {
  import opened Arith
  import opened Cuckoo

  // ------------------------------------------------------------ bit-packed flags

  function Bit(k: nat): bv8
    requires k < 8
  {
    1 << k
  }

  predicate BitIsSet(b: bv8, k: nat)
    requires k < 8
  {
    Bit(k) & b != 0
  }

  lemma BitsApart(j: nat, k: nat)
    requires j < 8 && k < 8
    ensures Bit(j) & Bit(k) != 0 <==> j == k
  {
    var bits: seq<bv8> := [1, 2, 4, 8, 16, 32, 64, 128];
    assert forall i | 0 <= i < 8 :: Bit(i) == bits[i];
  }

  lemma SetBit(b: bv8, k: nat, j: nat)
    requires k < 8 && j < 8
    ensures BitIsSet(b | Bit(k), j) <==> j == k || BitIsSet(b, j)
    ensures BitIsSet(b & !Bit(k), j) <==> j != k && BitIsSet(b, j)
  {
    hide Bit;
    BitsApart(j, k);
    OneBit(k);
    OneBit(j);
    SetOne(b, Bit(k), Bit(j));
  }

  lemma OneBit(k: nat)
    requires k < 8
    ensures Bit(k) != 0 && Bit(k) & (Bit(k) - 1) == 0
  {
    var bits: seq<bv8> := [1, 2, 4, 8, 16, 32, 64, 128];
    assert Bit(k) == bits[k];
  }

  lemma SetOne(b: bv8, x: bv8, y: bv8)
    requires x != 0 && x & (x - 1) == 0 && y != 0 && y & (y - 1) == 0
    ensures y & (b | x) != 0 <==> y & x != 0 || y & b != 0
    ensures y & (b & !x) != 0 <==> y & x == 0 && y & b != 0
  {
  }

  lemma AllSet(k: nat)
    requires k < 8
    ensures BitIsSet(0xFF, k)
  {
    var bits: seq<bv8> := [1, 2, 4, 8, 16, 32, 64, 128];
    assert Bit(k) == bits[k];
  }

  class Flags {
    const mem: array<bv8>

    constructor (size: nat)
      ensures fresh(mem) && Capacity() == 8 * ((size + 7) / 8) >= size
      ensures forall s | 0 <= s < Capacity() :: IsSet(s)
    {
      mem := new bv8[(size + 7) / 8];
      new;
      for i := 0 to mem.Length
        invariant forall j | 0 <= j < i :: mem[j] == 0xFF
      {
        mem[i] := 0xFF;
      }
      forall s | 0 <= s < Capacity()
        ensures IsSet(s)
      {
        AllSet(s % 8);
      }
    }

    function Capacity(): nat { 8 * mem.Length }

    predicate IsSet(s: nat)
      requires s < Capacity()
      reads mem
    {
      BitIsSet(mem[s / 8], s % 8)
    }

    ghost function Bits(n: nat): (bits: seq<bool>)
      requires n <= Capacity()
      reads mem
      ensures |bits| == n && forall i | 0 <= i < n :: bits[i] == IsSet(i)
    {
      if n == 0 then [] else Bits(n - 1) + [IsSet(n - 1)]
    }

    method Set(s: nat)
      requires s < Capacity()
      modifies mem
      ensures forall i: nat | i < Capacity() :: IsSet(i) <==> i == s || old(IsSet(i))
    {
      mem[s / 8] := mem[s / 8] | Bit(s % 8);
      forall i: nat | i < Capacity()
        ensures IsSet(i) <==> i == s || old(IsSet(i))
      {
        SetBit(old(mem[s / 8]), s % 8, i % 8);
      }
    }

    method Unset(s: nat)
      requires s < Capacity()
      modifies mem
      ensures forall i: nat | i < Capacity() :: IsSet(i) <==> i != s && old(IsSet(i))
    {
      mem[s / 8] := mem[s / 8] & !Bit(s % 8);
      forall i: nat | i < Capacity()
        ensures IsSet(i) <==> i != s && old(IsSet(i))
      {
        SetBit(old(mem[s / 8]), s % 8, i % 8);
      }
    }
  }

  // -------------------------------------------------------------------- the cache

  class Cache {
    const hash: Hash
    const size: nat
    const depthLimit: nat
    const epochSize: nat
    const table: array<Element>
    const collection: Flags
    const epochFlags: array<bool>
    var counter: nat

    ghost predicate Valid()
      reads this
    {
      && 0 < size < INVALID && table.Length == epochFlags.Length == size <= collection.Capacity()
      && var t: object, f: object, m: object := table, epochFlags, collection.mem;
         t != f && t != m && f != m
    }

    ghost function Collected(): (c: seq<bool>)
      requires Valid()
      reads this, collection.mem
      ensures |c| == size && forall i | 0 <= i < size :: c[i] == collection.IsSet(i)
    {
      collection.Bits(size)
    }

    ghost function Abs(): (s: State)
      requires Valid()
      reads this, table, epochFlags, collection.mem
      ensures Shape(s)
    {
      State(table[..], Collected(), epochFlags[..], counter, epochSize, depthLimit)
    }

    // Construction and setup; `log2` is the library's logarithm of a float, truncated.
    constructor (h: Hash, newSize: nat, log2: nat -> nat)
      requires 1 <= log2(Cast(Max(2, newSize))) <= 31
      ensures Valid() && Abs() == Setup(log2(Cast(Max(2, newSize)))) && hash == h
      ensures fresh(table) && fresh(epochFlags) && fresh(collection.mem)
    {
      var d := log2(Cast(Max(2, newSize)));
      SetupInv(h, d);
      var n := Pow2(d);
      depthLimit := d;
      size := n;
      hash := h;
      table := new Element[n](_ => 0);
      collection := new Flags(n);
      epochFlags := new bool[n](_ => false);
      epochSize := EpochSize(n);
      counter := EpochSize(n);
      new;
      assert Collected() == Setup(d).collected;
      assert table[..] == Setup(d).table;
      assert epochFlags[..] == Setup(d).recent;
    }

    method ComputeHashes(e: Element) returns (locs: seq<nat>)
      requires Valid()
      ensures locs == Locs(hash, size, e)
    {
      locs := Locs(hash, size, e);
    }

    method Find(locs: seq<nat>, e: Element) returns (k: nat)
      requires Valid() && forall i | 0 <= i < |locs| :: locs[i] < size
      ensures k == First(locs, Holding(Abs(), e))
    {
      k := 0;
      while k < |locs| && table[locs[k]] != e
        invariant k <= |locs| && forall j | 0 <= j < k :: table[locs[j]] != e
      {
        k := k + 1;
      }
      FirstIs(locs, Holding(Abs(), e), k);
    }

    method FindFree(locs: seq<nat>) returns (k: nat)
      requires Valid() && forall i | 0 <= i < |locs| :: locs[i] < size
      ensures k == First(locs, Free(Abs()))
    {
      k := 0;
      while k < |locs| && !collection.IsSet(locs[k])
        invariant k <= |locs| && forall j | 0 <= j < k :: !collection.IsSet(locs[j])
      {
        k := k + 1;
      }
      FirstIs(locs, Free(Abs()), k);
    }

    method Put(loc: nat, e: Element, epoch: bool)
      requires Valid() && loc < size
      modifies table, epochFlags, collection.mem
      ensures Abs() == Placed(old(Abs()), loc, e, epoch)
    {
      table[loc] := e;
      collection.Unset(loc);
      epochFlags[loc] := epoch;
      assert Collected() == old(Collected())[loc := false];
    }

    // The number of recent slots that are not garbage.
    method CountLive() returns (n: nat)
      requires Valid()
      ensures n == Live(epochFlags[..], Collected())
    {
      n := 0;
      ghost var r, c := epochFlags[..], Collected();
      for i := 0 to size
        invariant n == Live(r[..i], c[..i])
      {
        assert r[..i + 1][..i] == r[..i] && c[..i + 1][..i] == c[..i];
        if epochFlags[i] && !collection.IsSet(i) {
          n := n + 1;
        }
      }
      assert r[..size] == r && c[..size] == c;
    }

    method Age()
      requires Valid()
      modifies epochFlags, collection.mem
      ensures Abs() == Aged(old(Abs()))
    {
      ghost var was := Abs();
      for i := 0 to size
        invariant forall j | 0 <= j < i :: !epochFlags[j]
        invariant forall j | i <= j < size :: epochFlags[j] == was.recent[j]
        invariant forall j: nat | j < size ::
            collection.IsSet(j) == (was.collected[j] || (j < i && !was.recent[j]))
      {
        if epochFlags[i] {
          epochFlags[i] := false;
        } else {
          collection.Set(i);
        }
      }
      assert Collected() == Aged(was).collected;
      assert epochFlags[..] == Aged(was).recent;
    }

    method CheckEpoch()
      requires Valid()
      modifies this`counter, epochFlags, collection.mem
      ensures Valid() && Abs() == EpochCheck(old(Abs()))
    {
      if counter != 0 {
        counter := counter - 1;
        return;
      }
      var unused := CountLive();
      if unused >= epochSize {
        Age();
        counter := epochSize;
      } else {
        counter := Max(1, Max(epochSize / 16, epochSize - unused));
      }
    }

    method Insert(e: Element)
      requires Valid()
      modifies this`counter, table, epochFlags, collection.mem
      ensures Valid() && Abs() == Cuckoo.Insert(hash, old(Abs()), e)
    {
      CheckEpoch();
      var locs := ComputeHashes(e);
      var k := Find(locs, e);
      if k < 8 {
        Put(locs[k], e, true);
        return;
      }
      Walk(e);
    }

    // The displacement loop of insert.
    method Walk(e: Element)
      requires Valid()
      modifies table, epochFlags, collection.mem
      ensures Valid() && Abs() == Displace(hash, old(Abs()), e, true, INVALID, 0)
    {
      var hand, epoch, last := e, true, INVALID;
      var depth := 0;
      while depth < depthLimit
        invariant 0 <= depth <= depthLimit
        invariant Displace(hash, Abs(), hand, epoch, last, depth) == Displace(hash, old(Abs()), e, true, INVALID, 0)
      {
        var locs := ComputeHashes(hand);
        var k := FindFree(locs);
        if k < 8 {
          Put(locs[k], hand, epoch);
          return;
        }
        last, hand, epoch := Swap(locs, last, hand, epoch);
        depth := depth + 1;
      }
    }

    method Swap(locs: seq<nat>, last: int, e: Element, epoch: bool) returns (n: nat, out: Element, outEpoch: bool)
      requires Valid() && |locs| == 8 && forall i | 0 <= i < 8 :: locs[i] < size
      modifies table, epochFlags
      ensures n == NextLoc(locs, last) && out == old(table[n]) && outEpoch == old(epochFlags[n])
      ensures Abs() == Swapped(old(Abs()), n, e, epoch)
    {
      var k := 0;
      while k < |locs| && locs[k] != last
        invariant k <= |locs| && forall j | 0 <= j < k :: locs[j] != last
      {
        k := k + 1;
      }
      FirstIs(locs, Same(last), k);
      n := locs[(1 + k) % 8];
      out, outEpoch := table[n], epochFlags[n];
      table[n] := e;
      epochFlags[n] := epoch;
      assert Collected() == old(Collected());
    }

    method Contains(e: Element, erase: bool) returns (found: bool)
      requires Valid()
      modifies collection.mem
      ensures Valid() && found == Cuckoo.Contains(hash, old(Abs()), e)
      ensures Abs() == if erase then Erased(hash, old(Abs()), e) else old(Abs())
    {
      var locs := ComputeHashes(e);
      var k := Find(locs, e);
      if k < 8 {
        if erase {
          collection.Set(locs[k]);
          assert Collected() == old(Collected())[locs[k] := true];
        }
        return true;
      }
      return false;
    }
  }
}
