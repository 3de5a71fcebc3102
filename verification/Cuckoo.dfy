/**
 The cuckoo cache of src/cuckoocache.h on values: a table in which every element has eight
 slots of its own, a garbage flag per slot and an epoch flag per slot. An element is kept
 while its slot's garbage flag is clear.
 */
module Cuckoo {
  import opened Arith

  type Element = nat

  // The eight hash functions.
  type Hash = (nat, Element) -> nat

  // The index no element hashes to.
  const INVALID: int := 0xFFFF_FFFF

  datatype State = State(
    table: seq<Element>,
    collected: seq<bool>,
    recent: seq<bool>,
    counter: nat,
    epochSize: nat,
    depthLimit: nat)

  predicate Shape(s: State) {
    0 < |s.table| == |s.collected| == |s.recent| < INVALID
  }

  // ----------------------------------------------------------------------- slots

  function Masked(hash: nat, size: nat): (i: nat)
    requires size > 0
    ensures i < size
  {
    hash % size
  }

  function Locs(h: Hash, size: nat, e: Element): (locs: seq<nat>)
    requires size > 0
    ensures |locs| == 8 && forall k | 0 <= k < 8 :: locs[k] < size
  {
    [Masked(h(0, e), size), Masked(h(1, e), size), Masked(h(2, e), size), Masked(h(3, e), size),
     Masked(h(4, e), size), Masked(h(5, e), size), Masked(h(6, e), size), Masked(h(7, e), size)]
  }

  // The position of the first wanted slot, or the number of slots.
  function First(locs: seq<nat>, wanted: nat -> bool): (k: nat)
    ensures k <= |locs|
    ensures k < |locs| ==> wanted(locs[k])
    ensures forall j | 0 <= j < k :: !wanted(locs[j])
  {
    if locs == [] || wanted(locs[0]) then 0
    else
      var n := First(locs[1..], wanted);
      assert forall j | 0 < j < n + 1 :: locs[j] == locs[1..][j - 1];
      n + 1
  }

  function Holding(s: State, e: Element): nat -> bool {
    (i: nat) => i < |s.table| && s.table[i] == e
  }

  function Free(s: State): nat -> bool {
    (i: nat) => i < |s.collected| && s.collected[i]
  }

  function Same(last: int): nat -> bool {
    (i: nat) => i == last
  }

  // The slot after the last one looked at; the second one if the last one is not among them.
  function NextLoc(locs: seq<nat>, last: int): (n: nat)
    requires |locs| == 8
    ensures n in locs
    ensures last !in locs ==> n == locs[1]
    ensures forall k | 0 <= k < 8 && locs[k] == last && last !in locs[..k] :: n == locs[(k + 1) % 8]
  {
    var k := (1 + First(locs, Same(last))) % 8;
    assert locs[k] in locs;
    locs[k]
  }

  // ------------------------------------------------------------------ operations

  function LiveAt(recent: bool, collected: bool): nat {
    if recent && !collected then 1 else 0
  }

  // Entries of the current epoch that have not been erased.
  function Live(recent: seq<bool>, collected: seq<bool>): (n: nat)
    requires |recent| == |collected|
  {
    if recent == [] then 0
    else
      var m := |recent| - 1;
      Live(recent[..m], collected[..m]) + LiveAt(recent[m], collected[m])
  }

  // Old entries become garbage and recent ones become old.
  function Aged(s: State): State
    requires Shape(s)
  {
    s.(recent := seq(|s.recent|, i => false),
       collected := seq(|s.collected|, i requires 0 <= i < |s.collected| => s.collected[i] || !s.recent[i]))
  }

  function EpochCheck(s: State): (c: State)
    requires Shape(s)
    ensures Shape(c)
  {
    if s.counter != 0 then s.(counter := s.counter - 1)
    else
      var live := Live(s.recent, s.collected);
      if live >= s.epochSize then Aged(s).(counter := s.epochSize)
      else s.(counter := Max(1, Max(s.epochSize / 16, s.epochSize - live)))
  }

  // An element is put in a slot that from now on is kept.
  function Placed(s: State, i: nat, e: Element, epoch: bool): State
    requires Shape(s) && i < |s.table|
  {
    s.(table := s.table[i := e], collected := s.collected[i := false], recent := s.recent[i := epoch])
  }

  // An element takes the place of another.
  function Swapped(s: State, i: nat, e: Element, epoch: bool): State
    requires Shape(s) && i < |s.table|
  {
    s.(table := s.table[i := e], recent := s.recent[i := epoch])
  }

  // Elements are moved on until a free slot turns up or the depth runs out.
  function Displace(h: Hash, s: State, e: Element, epoch: bool, last: int, depth: nat): (r: State)
    requires Shape(s)
    ensures Shape(r)
    decreases s.depthLimit - depth
  {
    if depth >= s.depthLimit then s
    else
      var locs := Locs(h, |s.table|, e);
      var k := First(locs, Free(s));
      if k < 8 then Placed(s, locs[k], e, epoch)
      else
        var n := NextLoc(locs, last);
        Displace(h, Swapped(s, n, e, epoch), s.table[n], s.recent[n], n, depth + 1)
  }

  function Insert(h: Hash, s: State, e: Element): (r: State)
    requires Shape(s)
    ensures Shape(r)
  {
    var c := EpochCheck(s);
    var locs := Locs(h, |c.table|, e);
    var k := First(locs, Holding(c, e));
    if k < 8 then Placed(c, locs[k], e, true) else Displace(h, c, e, true, INVALID, 0)
  }

  predicate Contains(h: Hash, s: State, e: Element)
    requires Shape(s)
  {
    First(Locs(h, |s.table|, e), Holding(s, e)) < 8
  }

  function Erased(h: Hash, s: State, e: Element): State
    requires Shape(s)
  {
    var locs := Locs(h, |s.table|, e);
    var k := First(locs, Holding(s, e));
    if k < 8 then s.(collected := s.collected[locs[k] := true]) else s
  }

  // ----------------------------------------------------------------------- setup

  // The depth whose power of two is the largest not above n.
  function Depth(n: nat): (d: nat)
    requires n > 0
    ensures Pow2(d) <= n < Pow2(d + 1)
  {
    if n == 1 then 0 else Depth(n / 2) + 1
  }

  function EpochSize(size: nat): nat {
    Max(1, ((45 * size) % 0x1_0000_0000) / 100)
  }

  // A 32-bit number as a float: 24 significant bits, to the nearest, ties to even.
  function Cast(n: nat): nat
    requires n > 0
  {
    var d := Depth(n);
    if d < 24 then n
    else
      var ulp := Pow2(d - 23);
      var q, r := n / ulp, n % ulp;
      if 2 * r > ulp || (2 * r == ulp && q % 2 == 1) then (q + 1) * ulp else q * ulp
  }

  // Just below a power of two, by less than half of what the last bit of a float is worth there.
  ghost predicate NearNextPower(n: nat)
    requires n > 0
  {
    var d := Depth(n);
    d >= 24 && n >= Pow2(d + 1) - Pow2(d - 24)
  }

  lemma DepthIs(n: nat, d: nat)
    requires n > 0 && Pow2(d) <= n < Pow2(d + 1)
    ensures Depth(n) == d
  {
    var e := Depth(n);
    if e < d {
      Pow2Grows(e + 1, d);
    } else if e > d {
      Pow2Grows(d + 1, e);
    }
  }

  // A quotient with 24 bits, and when it is the largest.
  lemma TopQuotient(n: nat, d: nat, ulp: nat)
    requires d >= 24 && ulp == Pow2(d - 23) && Pow2(d) <= n < Pow2(d + 1)
    ensures 0x80_0000 <= n / ulp <= 0xFF_FFFF && Pow2(d) == 0x80_0000 * ulp && Pow2(d + 1) == 0x100_0000 * ulp
    ensures ulp == 2 * Pow2(d - 24) && n == (n / ulp) * ulp + n % ulp
  {
    Pow2Add(23, d - 23);
    Pow2Add(24, d - 23);
    Pow2Add(16, 7);
    Pow2Add(7, 1);
    Pow2Table();
    DivMod(n, ulp);
    var q := n / ulp;
    if q < 0x80_0000 {
      MulMonotone(q + 1, 0x80_0000, ulp, ulp);
      Distribute(q, 1, ulp);
    }
    if q > 0xFF_FFFF {
      MulMonotone(0x100_0000, q, ulp, ulp);
    }
  }

  // The cast goes up to the next power of two exactly for these numbers, and otherwise stays below.
  lemma CastRoundsUpIff(n: nat)
    requires n > 0
    ensures Cast(n) > 0
    ensures Depth(Cast(n)) == Depth(n) + (if NearNextPower(n) then 1 else 0)
  {
    hide Depth;
    var d := Depth(n);
    if d >= 24 {
      var ulp := Pow2(d - 23);
      TopQuotient(n, d, ulp);
      CastAt(n, d, ulp, n / ulp, n % ulp);
    }
  }

  lemma CastAt(n: nat, d: nat, ulp: nat, q: nat, r: nat)
    requires d >= 24 && Pow2(d) <= n < Pow2(d + 1) && Depth(n) == d && ulp == Pow2(d - 23) && q == n / ulp && r == n % ulp
    requires 0x80_0000 <= q <= 0xFF_FFFF && Pow2(d) == 0x80_0000 * ulp && Pow2(d + 1) == 0x100_0000 * ulp
    requires ulp == 2 * Pow2(d - 24) && n == q * ulp + r && r < ulp
    ensures Cast(n) > 0 && Depth(Cast(n)) == d + (if NearNextPower(n) then 1 else 0)
  {
    hide Depth;
    Distribute(q, 1, ulp);
    MulMonotone(0x80_0000, q, ulp, ulp);
    if q == 0xFF_FFFF {
      assert NearNextPower(n) <==> 2 * r >= ulp;
      if 2 * r >= ulp {
        assert Pow2(d + 2) == 2 * Pow2(d + 1);
        DepthIs(Cast(n), d + 1);
      } else {
        DepthIs(Cast(n), d);
      }
    } else {
      MulMonotone(q + 1, 0xFF_FFFF, ulp, ulp);
      assert !NearNextPower(n);
      DepthIs(Cast(n), d);
    }
  }

  // With an exact logarithm of the float setup rounds down to a power of two exactly if the size is
  // not just below one; it then takes that one and has more slots than asked for.
  lemma SetupRoundsDownIff(n: nat)
    requires n > 0
    ensures Cast(n) > 0
    ensures |Setup(Depth(Cast(n))).table| <= n < 2 * |Setup(Depth(Cast(n))).table| <==> !NearNextPower(n)
    ensures NearNextPower(n) <==> |Setup(Depth(Cast(n))).table| > n
  {
    CastRoundsUpIff(n);
    RoundsDownIff(n, Depth(Cast(n)));
    hide Cast, Depth, NearNextPower, Setup;
  }

  // The state after setup, for the depth the logarithm has yielded.
  function Setup(depth: nat): State {
    var size := Pow2(depth);
    State(seq(size, i => 0), seq(size, i => true), seq(size, i => false), EpochSize(size), EpochSize(size), depth)
  }

  // The table is as large as the largest power of two not above the wanted size exactly if the
  // logarithm is right; one that is rounded up makes it larger than wanted.
  lemma RoundsDownIff(n: nat, depth: nat)
    requires n > 0
    ensures |Setup(depth).table| <= n < 2 * |Setup(depth).table| <==> depth == Depth(n)
    ensures depth > Depth(n) <==> |Setup(depth).table| > n
  {
    var d := Depth(n);
    if depth < d {
      Pow2Grows(depth + 1, d);
    } else if depth > d {
      Pow2Grows(d + 1, depth);
    }
  }

  // The epoch is 45% of the table exactly as long as the 32-bit product does not wrap.
  lemma EpochIsFortyFivePercentIff(d: nat)
    requires d <= 31
    ensures EpochSize(Pow2(d)) == Max(1, 45 * Pow2(d) / 100) <==> d <= 26
  {
    Pow2Table();
    if d <= 26 {
      Pow2Grows(d, 26);
    } else {
      Pow2Grows(27, d);
    }
    ProductWraps(Pow2(d));
  }

  lemma ProductWraps(size: nat)
    ensures size <= 0x400_0000 ==> EpochSize(size) == Max(1, 45 * size / 100)
    ensures size >= 0x800_0000 ==> EpochSize(size) != Max(1, 45 * size / 100)
  {
    WrapFalls(45 * size);
  }

  lemma WrapFalls(x: nat)
    ensures x < 0x1_0000_0000 ==> x % 0x1_0000_0000 == x
    ensures x >= 0x1_0000_0000 ==> (x % 0x1_0000_0000) / 100 < x / 100
  {
    assert x % 0x1_0000_0000 == x - 0x1_0000_0000 * (x / 0x1_0000_0000);
  }

  // ------------------------------------------------------------- kept elements

  function Slot<T>(e: T, collected: bool): multiset<T> {
    if collected then multiset{} else multiset{e}
  }

  // The kept elements.
  function Kept<T>(table: seq<T>, collected: seq<bool>): multiset<T>
    requires |table| == |collected|
  {
    if table == [] then multiset{}
    else
      var m := |table| - 1;
      Kept(table[..m], collected[..m]) + Slot(table[m], collected[m])
  }

  lemma {:induction false} KeptUpdate<T>(table: seq<T>, collected: seq<bool>, i: nat, e: T, c: bool)
    requires |table| == |collected| && i < |table|
    ensures Kept(table[i := e], collected[i := c]) + Slot(table[i], collected[i]) == Kept(table, collected) + Slot(e, c)
  {
    hide Kept, Slot;
    var m := |table| - 1;
    var t, k := table[i := e], collected[i := c];
    KeptLast(table, collected);
    KeptLast(t, k);
    if i == m {
      assert t[..m] == table[..m] && k[..m] == collected[..m];
      SwapLast(Kept(table[..m], collected[..m]), Slot(e, c), Slot(table[i], collected[i]));
    } else {
      assert t[..m] == table[..m][i := e] && k[..m] == collected[..m][i := c];
      KeptUpdate(table[..m], collected[..m], i, e, c);
      Shuffle(Kept(t[..m], k[..m]), Kept(table[..m], collected[..m]), Slot(table[i], collected[i]), Slot(e, c),
              Slot(table[m], collected[m]));
    }
  }

  lemma KeptLast<T>(table: seq<T>, collected: seq<bool>)
    requires |table| == |collected| > 0
    ensures
      var m := |table| - 1;
      Kept(table, collected) == Kept(table[..m], collected[..m]) + Slot(table[m], collected[m])
  {
  }

  lemma SwapLast<T>(a: multiset<T>, x: multiset<T>, y: multiset<T>)
    ensures (a + x) + y == (a + y) + x
  {
  }

  lemma Shuffle<T>(a: multiset<T>, b: multiset<T>, x: multiset<T>, y: multiset<T>, z: multiset<T>)
    requires a + x == b + y
    ensures (a + z) + x == (b + z) + y
  {
    assert (a + z) + x == (a + x) + z;
  }

  lemma {:induction false} LiveUpdate(recent: seq<bool>, collected: seq<bool>, i: nat, r: bool, c: bool)
    requires |recent| == |collected| && i < |recent|
    ensures Live(recent[i := r], collected[i := c]) + LiveAt(recent[i], collected[i])
         == Live(recent, collected) + LiveAt(r, c)
  {
    var m := |recent| - 1;
    var t, k := recent[i := r], collected[i := c];
    if i == m {
      assert t[..m] == recent[..m] && k[..m] == collected[..m];
    } else {
      assert t[..m] == recent[..m][i := r] && k[..m] == collected[..m][i := c];
      LiveUpdate(recent[..m], collected[..m], i, r, c);
    }
  }

  lemma {:induction false} NothingLive(recent: seq<bool>, collected: seq<bool>)
    requires |recent| == |collected|
    requires forall i | 0 <= i < |recent| :: !recent[i] || collected[i]
    ensures Live(recent, collected) == 0
  {
    if recent != [] {
      NothingLive(recent[..|recent| - 1], collected[..|recent| - 1]);
    }
  }

  lemma {:induction false} NothingKept(table: seq<Element>, collected: seq<bool>)
    requires |table| == |collected|
    requires forall i | 0 <= i < |table| :: collected[i]
    ensures Kept(table, collected) == multiset{}
  {
    if table != [] {
      NothingKept(table[..|table| - 1], collected[..|table| - 1]);
    }
  }

  lemma {:induction false} KeptWhere(table: seq<Element>, collected: seq<bool>, e: Element) returns (i: nat)
    requires |table| == |collected| && e in Kept(table, collected)
    ensures i < |table| && !collected[i] && table[i] == e
  {
    var m := |table| - 1;
    if e in Slot(table[m], collected[m]) {
      i := m;
    } else {
      i := KeptWhere(table[..m], collected[..m], e);
    }
  }

  // ------------------------------------------------------------------- invariant

  // A kept element sits in one of its own slots, and no earlier one of them holds it too.
  predicate KeptAt(h: Hash, s: State, i: nat)
    requires Shape(s) && i < |s.table|
  {
    var locs := Locs(h, |s.table|, s.table[i]);
    var k := First(locs, Holding(s, s.table[i]));
    k < 8 && locs[k] == i
  }

  ghost predicate Placement(h: Hash, s: State) {
    && Shape(s)
    && (forall i | 0 <= i < |s.table| && !s.collected[i] :: KeptAt(h, s, i))
  }

  // Two kept slots never hold the same element.
  lemma KeptOnce(h: Hash, s: State, i: nat, j: nat)
    requires Placement(h, s) && i < |s.table| && j < |s.table|
    requires !s.collected[i] && !s.collected[j] && s.table[i] == s.table[j]
    ensures i == j
  {
    assert KeptAt(h, s, i) && KeptAt(h, s, j);
  }

  // How far the current epoch may grow before the next scan.
  predicate EpochBound(s: State)
    requires Shape(s)
  {
    Live(s.recent, s.collected) + s.counter <= s.epochSize + Max(1, s.epochSize / 16)
  }

  ghost predicate Inv(h: Hash, s: State) {
    Placement(h, s) && EpochBound(s)
  }

  // An element on its way to a slot: no slot keeps it.
  ghost predicate InHand(s: State, e: Element)
    requires Shape(s)
  {
    forall i | 0 <= i < |s.table| && !s.collected[i] :: s.table[i] != e
  }

  lemma FirstIs(locs: seq<nat>, wanted: nat -> bool, k: nat)
    requires k <= |locs| && (k < |locs| ==> wanted(locs[k]))
    requires forall j | 0 <= j < k :: !wanted(locs[j])
    ensures First(locs, wanted) == k
  {
  }

  // A kept element stays where it is when another element is written elsewhere.
  lemma KeptAtStays(h: Hash, s: State, r: State, j: nat, i: nat)
    requires Shape(s) && Shape(r) && |r.table| == |s.table| && j < |s.table| && i < |s.table| && i != j
    requires KeptAt(h, s, j) && r.table == s.table[i := r.table[i]] && r.table[i] != s.table[j]
    ensures KeptAt(h, r, j)
  {
    var x := s.table[j];
    var locs := Locs(h, |s.table|, x);
    var k := First(locs, Holding(s, x));
    FirstIs(locs, Holding(r, x), k);
  }

  lemma PlacedKeeps(h: Hash, s: State, e: Element, epoch: bool, i: nat)
    requires Placement(h, s) && InHand(s, e)
    requires
      var locs := Locs(h, |s.table|, e);
      var k := First(locs, Free(s));
      k < 8 && i == locs[k]
    ensures Placement(h, Placed(s, i, e, epoch))
  {
    var r := Placed(s, i, e, epoch);
    hide First, Locs;
    forall j | 0 <= j < |r.table| && !r.collected[j]
      ensures KeptAt(h, r, j)
    {
      if j == i {
        var locs := Locs(h, |s.table|, e);
        FirstIs(locs, Holding(r, e), First(locs, Free(s)));
      } else {
        assert KeptAt(h, s, j);
        KeptAtStays(h, s, r, j, i);
      }
    }
  }

  lemma FoundKeeps(h: Hash, s: State, e: Element, epoch: bool, i: nat)
    requires Placement(h, s)
    requires
      var locs := Locs(h, |s.table|, e);
      var k := First(locs, Holding(s, e));
      k < 8 && i == locs[k]
    ensures Placement(h, Placed(s, i, e, epoch)) && Placed(s, i, e, epoch).table == s.table
  {
    var r := Placed(s, i, e, epoch);
    assert r.table == s.table;
    forall j | 0 <= j < |r.table| && !r.collected[j]
      ensures KeptAt(h, r, j)
    {
      KeptAtSame(h, s, r, j);
    }
  }

  lemma KeptAtSame(h: Hash, s: State, r: State, j: nat)
    requires Shape(s) && Shape(r) && r.table == s.table && j < |s.table|
    ensures KeptAt(h, r, j) == KeptAt(h, s, j)
  {
    var x := s.table[j];
    var locs := Locs(h, |s.table|, x);
    var k := First(locs, Holding(s, x));
    if k < 8 {
      FirstIs(locs, Holding(r, x), k);
    }
  }

  lemma SwappedKeeps(h: Hash, s: State, e: Element, epoch: bool, n: nat)
    requires Placement(h, s) && InHand(s, e)
    requires
      var locs := Locs(h, |s.table|, e);
      First(locs, Free(s)) == 8 && n in locs
    ensures n < |s.table| && !s.collected[n]
    ensures Placement(h, Swapped(s, n, e, epoch)) && InHand(Swapped(s, n, e, epoch), s.table[n])
  {
    var locs := Locs(h, |s.table|, e);
    var m :| 0 <= m < 8 && locs[m] == n;
    assert !Free(s)(locs[m]);
    hide First, Locs;
    var r := Swapped(s, n, e, epoch);
    forall j | 0 <= j < |r.table| && !r.collected[j]
      ensures KeptAt(h, r, j) && r.table[j] != s.table[n]
    {
      if j == n {
        SwappedAt(h, s, e, r, n, m);
      } else {
        assert KeptAt(h, s, j);
        KeptAtStays(h, s, r, j, n);
        if s.table[j] == s.table[n] {
          KeptOnce(h, s, j, n);
        }
      }
    }
  }

  lemma SwappedAt(h: Hash, s: State, e: Element, r: State, n: nat, m: nat)
    requires Shape(s) && InHand(s, e) && Shape(r) && n < |s.table| && r.table == s.table[n := e]
    requires
      var locs := Locs(h, |s.table|, e);
      First(locs, Free(s)) == 8 && m < 8 && locs[m] == n
    ensures KeptAt(h, r, n)
  {
    var locs := Locs(h, |s.table|, e);
    var k := First(locs, Holding(r, e));
    assert Holding(r, e)(locs[m]);
    assert !Free(s)(locs[k]);
  }

  // -------------------------------------------------------------------- insertion

  // The kept elements, each with its epoch flag.
  function Entries(s: State): multiset<(Element, bool)>
    requires Shape(s)
  {
    Kept(Zip(s.table, s.recent), s.collected)
  }

  function Zip(table: seq<Element>, recent: seq<bool>): (z: seq<(Element, bool)>)
    requires |table| == |recent|
    ensures |z| == |table| && forall i | 0 <= i < |z| :: z[i] == (table[i], recent[i])
  {
    seq(|table|, i requires 0 <= i < |table| => (table[i], recent[i]))
  }

  // One slot is written.
  lemma EntriesUpdate(s: State, r: State, i: nat, e: Element, epoch: bool, c: bool)
    requires Shape(s) && Shape(r) && i < |s.table|
    requires r.table == s.table[i := e] && r.recent == s.recent[i := epoch] && r.collected == s.collected[i := c]
    ensures Entries(r) + Slot((s.table[i], s.recent[i]), s.collected[i]) == Entries(s) + Slot((e, epoch), c)
  {
    assert Zip(r.table, r.recent) == Zip(s.table, s.recent)[i := (e, epoch)];
    KeptUpdate(Zip(s.table, s.recent), s.collected, i, (e, epoch), c);
  }

  // What may change when an element in hand is put away: at most one kept element is lost, and all
  // others keep their epoch flags.
  ghost predicate PutAway(s: State, r: State, e: Element, epoch: bool, lost: multiset<Element>,
                          gone: multiset<(Element, bool)>)
    requires Shape(s) && Shape(r)
  {
    && Kept(r.table, r.collected) + lost == Kept(s.table, s.collected) + multiset{e}
    && Entries(r) + gone == Entries(s) + multiset{(e, epoch)}
    && |gone| == |lost| <= 1
    && Live(r.recent, r.collected) <= Live(s.recent, s.collected) + (if epoch then 1 else 0)
    && r.counter == s.counter && r.epochSize == s.epochSize && r.depthLimit == s.depthLimit
  }

  lemma PlacedFree(s: State, i: nat, e: Element, epoch: bool)
    requires Shape(s) && i < |s.table| && s.collected[i]
    ensures PutAway(s, Placed(s, i, e, epoch), e, epoch, multiset{}, multiset{})
  {
    EntriesUpdate(s, Placed(s, i, e, epoch), i, e, epoch, false);
    hide Entries;
    KeptUpdate(s.table, s.collected, i, e, false);
    LiveUpdate(s.recent, s.collected, i, epoch, false);
  }

  lemma SwappedBalance(s: State, i: nat, e: Element, epoch: bool)
    requires Shape(s) && i < |s.table| && !s.collected[i]
    ensures
      var r := Swapped(s, i, e, epoch);
      && Kept(r.table, r.collected) + multiset{s.table[i]} == Kept(s.table, s.collected) + multiset{e}
      && Entries(r) + multiset{(s.table[i], s.recent[i])} == Entries(s) + multiset{(e, epoch)}
      && Live(r.recent, r.collected) + (if s.recent[i] then 1 else 0)
           == Live(s.recent, s.collected) + (if epoch then 1 else 0)
  {
    assert s.collected[i := false] == s.collected;
    EntriesUpdate(s, Swapped(s, i, e, epoch), i, e, epoch, false);
    hide Entries;
    KeptUpdate(s.table, s.collected, i, e, false);
    LiveUpdate(s.recent, s.collected, i, epoch, false);
  }

  lemma Chain(s: State, m: State, r: State, e: Element, epoch: bool, n: nat, lost: multiset<Element>,
              gone: multiset<(Element, bool)>)
    requires Shape(s) && Shape(m) && Shape(r) && n < |s.table|
    requires PutAway(m, r, s.table[n], s.recent[n], lost, gone)
    requires Entries(m) + multiset{(s.table[n], s.recent[n])} == Entries(s) + multiset{(e, epoch)}
    requires Kept(m.table, m.collected) + multiset{s.table[n]} == Kept(s.table, s.collected) + multiset{e}
    requires
      Live(m.recent, m.collected) + (if s.recent[n] then 1 else 0)
        == Live(s.recent, s.collected) + (if epoch then 1 else 0)
    requires m.counter == s.counter && m.epochSize == s.epochSize && m.depthLimit == s.depthLimit
    ensures PutAway(s, r, e, epoch, lost, gone)
  {
    hide Kept, Live, Entries;
  }

  // ---------------------------------------------------------------- who is moved

  // All eight slots of an element are live.
  ghost predicate AllLive(h: Hash, s: State, e: Element)
    requires Shape(s)
  {
    forall i | i in Locs(h, |s.table|, e) :: !s.collected[i]
  }

  // Elements that take each other's place: each of hands is written to its slot, and what was there
  // is the next in hand.
  function Written(table: seq<Element>, hands: seq<Element>, slots: seq<nat>): (t: seq<Element>)
    requires |slots| <= |hands| && forall i | 0 <= i < |slots| :: slots[i] < |table|
    ensures |t| == |table|
    decreases |slots|
  {
    if slots == [] then table else Written(table[slots[0] := hands[0]], hands[1..], slots[1..])
  }

  // Every one but the last in hand found its eight slots live, took the one after the slot it came
  // from, and handed on what was there.
  ghost predicate Trail(h: Hash, s: State, table: seq<Element>, hands: seq<Element>, slots: seq<nat>, from: int)
    requires Shape(s) && |table| == |s.table|
    decreases |slots|
  {
    && |hands| == |slots| + 1
    && (slots != [] ==>
          && AllLive(h, s, hands[0])
          && slots[0] == NextLoc(Locs(h, |table|, hands[0]), from) && slots[0] < |table|
          && hands[1] == table[slots[0]]
          && Trail(h, s, table[slots[0] := hands[0]], hands[1..], slots[1..], slots[0]))
  }

  lemma {:induction false} TrailSlots(h: Hash, s: State, table: seq<Element>, hands: seq<Element>, slots: seq<nat>,
                                      from: int)
    requires Shape(s) && |table| == |s.table| && Trail(h, s, table, hands, slots, from)
    ensures forall i | 0 <= i < |slots| :: slots[i] < |table|
    decreases |slots|
  {
    hide NextLoc, Locs, AllLive;
    if slots != [] {
      TrailSlots(h, s, table[slots[0] := hands[0]], hands[1..], slots[1..], slots[0]);
      assert forall i | 1 <= i < |slots| :: slots[i] == slots[1..][i - 1];
    }
  }

  // The outcome of moving elements on, starting with the first in hand: the last one found a garbage
  // slot, its first one, before the depth ran out, or it is given up.
  ghost predicate Moved(h: Hash, s: State, r: State, hands: seq<Element>, slots: seq<nat>, from: int, limit: nat,
                        lost: multiset<Element>)
    requires Shape(s) && Shape(r)
  {
    && Trail(h, s, s.table, hands, slots, from) && (forall i | 0 <= i < |slots| :: slots[i] < |s.table|)
    && var last := hands[|slots|];
       var k := First(Locs(h, |s.table|, last), Free(s));
       if lost == multiset{} then
         && |slots| < limit && k < 8
         && var i := Locs(h, |s.table|, last)[k];
            && r.table == Written(s.table, hands, slots)[i := last]
            && r.collected == s.collected[i := false]
       else
         && |slots| == limit && lost == multiset{last}
         && r.table == Written(s.table, hands, slots) && r.collected == s.collected
  }

  // What happened in a displacement.
  datatype Account = Account(
    hands: seq<Element>,
    slots: seq<nat>,
    lost: multiset<Element>,
    gone: multiset<(Element, bool)>)

  lemma {:induction false} DisplaceKeeps(h: Hash, s: State, e: Element, epoch: bool, last: int, depth: nat)
    returns (a: Account)
    requires Placement(h, s) && InHand(s, e)
    ensures
      var r := Displace(h, s, e, epoch, last, depth);
      && Placement(h, r) && PutAway(s, r, e, epoch, a.lost, a.gone)
      && (depth <= s.depthLimit ==>
            Moved(h, s, r, a.hands, a.slots, last, s.depthLimit - depth, a.lost) && a.hands[0] == e)
    decreases s.depthLimit - depth
  {
    hide First, Kept, Live, KeptAt, InHand, Entries, Locs, NextLoc;
    if depth >= s.depthLimit {
      a := Account([e], [], multiset{e}, multiset{(e, epoch)});
    } else {
      var locs := Locs(h, |s.table|, e);
      var k := First(locs, Free(s));
      if k < 8 {
        PlacedKeeps(h, s, e, epoch, locs[k]);
        PlacedFree(s, locs[k], e, epoch);
        a := Account([e], [], multiset{}, multiset{});
      } else {
        var n := NextLoc(locs, last);
        var m, r := Swapped(s, n, e, epoch), Displace(h, s, e, epoch, last, depth);
        SwappedKeeps(h, s, e, epoch, n);
        SwappedBalance(s, n, e, epoch);
        var rest := DisplaceKeeps(h, m, s.table[n], s.recent[n], n, depth + 1);
        Chain(s, m, r, e, epoch, n, rest.lost, rest.gone);
        a := Account([e] + rest.hands, [n] + rest.slots, rest.lost, rest.gone);
        NoneFree(h, s, e);
        MovedBack(h, s, m, r, e, last, n, rest.hands, rest.slots, s.depthLimit - depth - 1, rest.lost);
      }
    }
  }

  lemma NoneFree(h: Hash, s: State, e: Element)
    requires Shape(s)
    ensures First(Locs(h, |s.table|, e), Free(s)) == 8 <==> AllLive(h, s, e)
  {
    var locs := Locs(h, |s.table|, e);
    hide Locs;
    if First(locs, Free(s)) == 8 {
      forall i | i in locs
        ensures !s.collected[i]
      {
        var k :| 0 <= k < 8 && locs[k] == i;
        assert !Free(s)(locs[k]);
      }
    } else {
      assert locs[First(locs, Free(s))] in locs;
    }
  }

  // The trail after the first swap is the rest of the trail before it.
  lemma MovedBack(h: Hash, s: State, m: State, r: State, e: Element, from: int, n: nat, rest: seq<Element>,
                  ways: seq<nat>, limit: nat, lost: multiset<Element>)
    requires Shape(s) && Shape(m) && Shape(r) && n < |s.table| && AllLive(h, s, e)
    requires n == NextLoc(Locs(h, |s.table|, e), from)
    requires m.table == s.table[n := e] && m.collected == s.collected
    requires Moved(h, m, r, rest, ways, n, limit, lost) && rest[0] == s.table[n]
    ensures Moved(h, s, r, [e] + rest, [n] + ways, from, limit + 1, lost)
  {
    hide First, Locs, NextLoc;
    var hands, slots := [e] + rest, [n] + ways;
    assert hands[1..] == rest && slots[1..] == ways;
    SameTrail(h, m, s, m.table, rest, ways, n);
    TrailSlots(h, s, s.table, hands, slots, from);
    SameFree(h, m, s, rest[|ways|]);
  }

  lemma {:induction false} SameTrail(h: Hash, s: State, r: State, table: seq<Element>, hands: seq<Element>,
                                     slots: seq<nat>, from: int)
    requires Shape(s) && Shape(r) && |table| == |s.table| == |r.table| && r.collected == s.collected
    requires Trail(h, s, table, hands, slots, from)
    ensures Trail(h, r, table, hands, slots, from)
    decreases |slots|
  {
    hide Locs, NextLoc;
    if slots != [] {
      assert AllLive(h, r, hands[0]);
      SameTrail(h, s, r, table[slots[0] := hands[0]], hands[1..], slots[1..], slots[0]);
    }
  }

  lemma SameFree(h: Hash, s: State, r: State, e: Element)
    requires Shape(s) && Shape(r) && |s.table| == |r.table| && r.collected == s.collected
    ensures First(Locs(h, |s.table|, e), Free(r)) == First(Locs(h, |s.table|, e), Free(s))
  {
    var locs := Locs(h, |s.table|, e);
    hide Locs;
    FirstIs(locs, Free(r), First(locs, Free(s)));
  }

  // ------------------------------------------------------------------ epoch check

  lemma EpochCheckKeeps(h: Hash, s: State)
    requires Inv(h, s)
    ensures
      var c := EpochCheck(s);
      && Placement(h, c) && c.table == s.table && c.epochSize == s.epochSize && c.depthLimit == s.depthLimit
      && Live(c.recent, c.collected) + c.counter + 1 <= c.epochSize + Max(1, c.epochSize / 16)
  {
    var c := EpochCheck(s);
    forall j | 0 <= j < |c.table| && !c.collected[j]
      ensures KeptAt(h, c, j)
    {
      KeptAtSame(h, s, c, j);
    }
    if s.counter == 0 && Live(s.recent, s.collected) >= s.epochSize {
      NothingLive(c.recent, c.collected);
    }
  }

  // The elements in live slots of the current epoch.
  function LiveElements(table: seq<Element>, collected: seq<bool>, recent: seq<bool>): multiset<Element>
    requires |table| == |collected| == |recent|
  {
    if table == [] then multiset{}
    else
      var m := |table| - 1;
      LiveElements(table[..m], collected[..m], recent[..m])
      + if recent[m] && !collected[m] then multiset{table[m]} else multiset{}
  }

  // Ageing gives up what was not recent and nothing else.
  lemma {:induction false} AgedKept(table: seq<Element>, collected: seq<bool>, recent: seq<bool>, aged: seq<bool>)
    requires |table| == |collected| == |recent| == |aged|
    requires forall i | 0 <= i < |table| :: aged[i] == (collected[i] || !recent[i])
    ensures |Kept(table, aged)| == Live(recent, collected) && Kept(table, aged) <= Kept(table, collected)
    ensures Kept(table, aged) == LiveElements(table, collected, recent)
  {
    if table != [] {
      var m := |table| - 1;
      AgedKept(table[..m], collected[..m], recent[..m], aged[..m]);
    }
  }

  // The insertions until the next scan: one less; or, after a scan, a whole epoch if a new one was
  // started, else as many as still fit in, but no less than a sixteenth and at least one.
  predicate ScanIn(before: nat, epochSize: nat, live: nat, after: nat) {
    if before != 0 then after + 1 == before
    else if live >= epochSize then after == epochSize
    else
      && after >= 1 && 16 * after + 15 >= epochSize && after + live >= epochSize
      && (after == 1 || 16 * after <= epochSize || after + live == epochSize)
  }

  lemma EpochCheckGivesUp(s: State)
    requires Shape(s)
    ensures
      var c := EpochCheck(s);
      && Kept(c.table, c.collected) <= Kept(s.table, s.collected)
      && (if s.counter == 0 && Live(s.recent, s.collected) >= s.epochSize
          then && Kept(c.table, c.collected) == LiveElements(s.table, s.collected, s.recent)
               && |Kept(c.table, c.collected)| == Live(s.recent, s.collected)
          else Kept(c.table, c.collected) == Kept(s.table, s.collected))
      && ScanIn(s.counter, s.epochSize, Live(s.recent, s.collected), c.counter)
  {
    AgedKept(s.table, s.collected, s.recent, Aged(s).collected);
    CounterIs(s.epochSize, Live(s.recent, s.collected));
    hide Kept, Live, LiveElements;
  }

  lemma CounterIs(epochSize: nat, live: nat)
    ensures live < epochSize ==> ScanIn(0, epochSize, live, Max(1, Max(epochSize / 16, epochSize - live)))
  {
  }

  lemma FoundIsKept(h: Hash, s: State, e: Element)
    requires Placement(h, s) && e in Kept(s.table, s.collected)
    ensures
      var locs := Locs(h, |s.table|, e);
      var k := First(locs, Holding(s, e));
      k < 8 && !s.collected[locs[k]]
  {
    var i := KeptWhere(s.table, s.collected, e);
    assert KeptAt(h, s, i);
  }

  // contains finds every kept element.
  lemma ContainsKept(h: Hash, s: State, e: Element)
    requires Placement(h, s) && e in Kept(s.table, s.collected)
    ensures Contains(h, s, e)
  {
    FoundIsKept(h, s, e);
  }

  lemma KeptIn(table: seq<Element>, collected: seq<bool>, i: nat)
    requires |table| == |collected| && i < |table| && !collected[i]
    ensures table[i] in Kept(table, collected)
  {
    if i < |table| - 1 {
      KeptIn(table[..|table| - 1], collected[..|table| - 1], i);
    }
  }

  // The outcome of an insertion, c being the state after its epoch check: an element that is kept
  // already stays, in the current epoch; otherwise the kept elements gain it, in the current epoch,
  // and lose at most one, and only if as many as the depth allows found all their slots live.
  ghost predicate Inserted(h: Hash, c: State, r: State, e: Element, a: Account)
    requires Shape(c) && Shape(r)
  {
    && |a.lost| == |a.gone| <= 1
    && Exchanged(Kept(c.table, c.collected), Kept(r.table, r.collected), e, a.lost)
    && Entries(r) + a.gone == Entries(c) + multiset{(e, true)}
    && (if First(Locs(h, |c.table|, e), Holding(c, e)) < 8 then
          && r.table == c.table && (e !in Kept(c.table, c.collected) ==> a.lost == multiset{})
        else
          && Moved(h, c, r, a.hands, a.slots, INVALID, c.depthLimit, a.lost) && a.hands[0] == e)
  }

  // The kept elements gain e and lose `lost`; if e was among them nothing changes.
  ghost predicate Exchanged(before: multiset<Element>, now: multiset<Element>, e: Element, lost: multiset<Element>) {
    && now + lost == before + multiset{e}
    && (e in before ==> now == before && lost == multiset{e})
  }

  lemma InsertEffect(h: Hash, s: State, e: Element) returns (a: Account)
    requires Inv(h, s)
    ensures Inv(h, Insert(h, s, e)) && Inserted(h, EpochCheck(s), Insert(h, s, e), e, a)
    ensures Insert(h, s, e).depthLimit == s.depthLimit
  {
    EpochCheckKeeps(h, s);
    var c := EpochCheck(s);
    hide EpochCheck, Kept, Live, Entries, Locs, Inserted, Moved, Placed, Displace;
    var locs := Locs(h, |c.table|, e);
    var k := First(locs, Holding(c, e));
    if k < 8 {
      a := FoundEffect(h, c, e, locs[k]);
      PlacedCounters(c, locs[k], e, true);
    } else {
      a := DisplacedEffect(h, c, e);
    }
  }

  lemma PlacedCounters(c: State, i: nat, e: Element, epoch: bool)
    requires Shape(c) && i < |c.table|
    ensures
      var r := Placed(c, i, e, epoch);
      r.counter == c.counter && r.epochSize == c.epochSize && r.depthLimit == c.depthLimit
  {
  }

  lemma DisplacedEffect(h: Hash, c: State, e: Element) returns (a: Account)
    requires Placement(h, c) && First(Locs(h, |c.table|, e), Holding(c, e)) == 8
    ensures
      var r := Displace(h, c, e, true, INVALID, 0);
      && Placement(h, r) && Inserted(h, c, r, e, a)
      && Live(r.recent, r.collected) <= Live(c.recent, c.collected) + 1
      && r.counter == c.counter && r.epochSize == c.epochSize && r.depthLimit == c.depthLimit
  {
    hide Kept, Live, Entries, Locs, First, Moved, KeptAt, InHand, Displace, Inserted;
    NotFound(h, c, e);
    a := DisplaceKeeps(h, c, e, true, INVALID, 0);
    DisplacedIs(h, c, Displace(h, c, e, true, INVALID, 0), e, a);
  }

  lemma DisplacedIs(h: Hash, c: State, r: State, e: Element, a: Account)
    requires Shape(c) && Shape(r) && PutAway(c, r, e, true, a.lost, a.gone) && e !in Kept(c.table, c.collected)
    requires Moved(h, c, r, a.hands, a.slots, INVALID, c.depthLimit, a.lost) && a.hands[0] == e
    requires First(Locs(h, |c.table|, e), Holding(c, e)) == 8
    ensures Inserted(h, c, r, e, a)
  {
    hide Kept, Live, Entries, Locs, First, Moved;
  }

  lemma FoundEffect(h: Hash, c: State, e: Element, i: nat) returns (a: Account)
    requires Placement(h, c)
    requires
      var locs := Locs(h, |c.table|, e);
      var k := First(locs, Holding(c, e));
      k < 8 && i == locs[k]
    ensures
      var r := Placed(c, i, e, true);
      && Placement(h, r) && Inserted(h, c, r, e, a)
      && Live(r.recent, r.collected) <= Live(c.recent, c.collected) + 1
  {
    var r := Placed(c, i, e, true);
    FoundKeeps(h, c, e, true, i);
    EntriesUpdate(c, r, i, e, true, false);
    LiveUpdate(c.recent, c.collected, i, true, false);
    FoundExchange(h, c, e, i);
    hide Entries, Kept, Live, Locs, First, Placement, Moved, Exchanged;
    a := Account([], [], Slot(e, c.collected[i]), Slot((e, c.recent[i]), c.collected[i]));
  }

  lemma FoundExchange(h: Hash, c: State, e: Element, i: nat)
    requires Placement(h, c)
    requires
      var locs := Locs(h, |c.table|, e);
      var k := First(locs, Holding(c, e));
      k < 8 && i == locs[k]
    ensures
      var r := Placed(c, i, e, true);
      && Exchanged(Kept(c.table, c.collected), Kept(r.table, r.collected), e, Slot(e, c.collected[i]))
      && (e !in Kept(c.table, c.collected) ==> c.collected[i])
  {
    KeptUpdate(c.table, c.collected, i, e, false);
    if e in Kept(c.table, c.collected) {
      FoundIsKept(h, c, e);
      assert c.table[i := e] == c.table && c.collected[i := false] == c.collected;
    } else if !c.collected[i] {
      KeptIn(c.table, c.collected, i);
    }
    hide Kept, Locs, First, Placement;
  }

  lemma NotFound(h: Hash, c: State, e: Element)
    requires Placement(h, c)
    requires First(Locs(h, |c.table|, e), Holding(c, e)) == 8
    ensures InHand(c, e) && e !in Kept(c.table, c.collected)
  {
    forall i | 0 <= i < |c.table| && !c.collected[i]
      ensures c.table[i] != e
    {
      assert KeptAt(h, c, i);
    }
    if e in Kept(c.table, c.collected) {
      FoundIsKept(h, c, e);
    }
  }

  // With a garbage slot among its eight, or a slot that holds it, an element is stored and nothing is
  // lost.
  lemma InsertStores(h: Hash, s: State, e: Element)
    requires Inv(h, s) && s.depthLimit >= 1
    ensures
      var c := EpochCheck(s);
      var r := Insert(h, s, e);
      && (!AllLive(h, c, e) && e !in Kept(c.table, c.collected) ==>
            Kept(r.table, r.collected) == Kept(c.table, c.collected) + multiset{e})
      && (!AllLive(h, c, e) || e in Kept(c.table, c.collected) ==> Contains(h, r, e))
  {
    EpochCheckKeeps(h, s);
    var a := InsertEffect(h, s, e);
    var c, r := EpochCheck(s), Insert(h, s, e);
    hide EpochCheck, Insert, Kept, Live, Inserted, AllLive, Contains, EpochBound, Placement;
    if !AllLive(h, c, e) || e in Kept(c.table, c.collected) {
      StoredFrom(h, c, r, e, a);
      ContainsKept(h, r, e);
    }
  }

  lemma StoredFrom(h: Hash, c: State, r: State, e: Element, a: Account)
    requires Shape(c) && Placement(h, c) && Shape(r) && c.depthLimit >= 1 && Inserted(h, c, r, e, a)
    requires !AllLive(h, c, e) || e in Kept(c.table, c.collected)
    ensures e !in Kept(c.table, c.collected) ==> Kept(r.table, r.collected) == Kept(c.table, c.collected) + multiset{e}
    ensures e in Kept(r.table, r.collected)
  {
    hide Kept, Moved, Locs, First, Entries, AllLive, Exchanged, Placement;
    if First(Locs(h, |c.table|, e), Holding(c, e)) == 8 {
      NotFound(h, c, e);
      FirstFindsRoom(h, c, r, a);
    }
    Stored(Kept(c.table, c.collected), Kept(r.table, r.collected), e, a.lost);
  }

  lemma Stored(before: multiset<Element>, now: multiset<Element>, e: Element, lost: multiset<Element>)
    requires Exchanged(before, now, e, lost) && (e !in before ==> lost == multiset{})
    ensures e !in before ==> now == before + multiset{e}
    ensures e in now
  {
    assert now + multiset{} == now;
  }

  lemma FirstFindsRoom(h: Hash, c: State, r: State, a: Account)
    requires Shape(c) && Shape(r) && c.depthLimit >= 1 && Moved(h, c, r, a.hands, a.slots, INVALID, c.depthLimit, a.lost)
    requires !AllLive(h, c, a.hands[0])
    ensures a.lost == multiset{} && a.slots == []
  {
    hide Locs, First;
  }

  // An element is lost only after as many moves as the depth allows, the first one being that of the
  // element inserted: each in hand found all its eight slots live.
  lemma {:induction false} TrailLive(h: Hash, s: State, table: seq<Element>, hands: seq<Element>, slots: seq<nat>,
                                     from: int)
    requires Shape(s) && |table| == |s.table| && Trail(h, s, table, hands, slots, from)
    ensures forall i | 0 <= i < |slots| :: AllLive(h, s, hands[i])
    decreases |slots|
  {
    hide AllLive, Locs, NextLoc;
    if slots != [] {
      TrailLive(h, s, table[slots[0] := hands[0]], hands[1..], slots[1..], slots[0]);
      assert forall i | 1 <= i < |slots| :: hands[i] == hands[1..][i - 1];
    }
  }

  lemma LossNeedsFullSlots(h: Hash, s: State, e: Element) returns (hands: seq<Element>, slots: seq<nat>)
    requires Inv(h, s)
    ensures
      var c := EpochCheck(s);
      var r := Insert(h, s, e);
      e !in Kept(c.table, c.collected) && Kept(r.table, r.collected) != Kept(c.table, c.collected) + multiset{e} ==>
        && |hands| == c.depthLimit + 1 && hands[0] == e && Trail(h, c, c.table, hands, slots, INVALID)
        && (forall i | 0 <= i < c.depthLimit :: AllLive(h, c, hands[i]))
        && Kept(r.table, r.collected) + multiset{hands[c.depthLimit]} == Kept(c.table, c.collected) + multiset{e}
  {
    var a := InsertEffect(h, s, e);
    hands, slots := a.hands, a.slots;
    var c, r := EpochCheck(s), Insert(h, s, e);
    hide EpochCheck, Insert, Kept, Live, Inserted, AllLive, EpochBound, Placement, Trail;
    if e !in Kept(c.table, c.collected) && Kept(r.table, r.collected) != Kept(c.table, c.collected) + multiset{e} {
      LostFrom(h, c, r, e, a);
    }
  }

  lemma LostFrom(h: Hash, c: State, r: State, e: Element, a: Account)
    requires Shape(c) && Shape(r) && Inserted(h, c, r, e, a) && e !in Kept(c.table, c.collected)
    requires Kept(r.table, r.collected) != Kept(c.table, c.collected) + multiset{e}
    ensures |a.hands| == c.depthLimit + 1 && a.hands[0] == e && a.lost == multiset{a.hands[c.depthLimit]}
    ensures Trail(h, c, c.table, a.hands, a.slots, INVALID)
    ensures forall i | 0 <= i < c.depthLimit :: AllLive(h, c, a.hands[i])
    ensures Kept(r.table, r.collected) + a.lost == Kept(c.table, c.collected) + multiset{e}
  {
    hide Kept, Locs, First, Entries, AllLive, Written;
    if a.lost == multiset{} {
      Stored(Kept(c.table, c.collected), Kept(r.table, r.collected), e, a.lost);
    }
    TrailLive(h, c, c.table, a.hands, a.slots, INVALID);
  }

  // ---------------------------------------------------------------------- erasing

  lemma ErasedKeeps(h: Hash, s: State, e: Element)
    requires Placement(h, s)
    ensures Placement(h, Erased(h, s, e)) && Erased(h, s, e).table == s.table
  {
    var r := Erased(h, s, e);
    forall j | 0 <= j < |r.table| && !r.collected[j]
      ensures KeptAt(h, r, j)
    {
      assert KeptAt(h, s, j);
      KeptAtSame(h, s, r, j);
    }
  }

  lemma Minus(a: multiset<Element>, b: multiset<Element>, e: Element, taken: multiset<Element>)
    requires a + taken == b
    requires if e in b then taken == multiset{e} else taken <= multiset{e}
    ensures a == b - multiset{e}
  {
    assert a == b - taken;
  }

  lemma ErasedSums(h: Hash, s: State, e: Element)
    requires Placement(h, s)
    ensures
      var r := Erased(h, s, e);
      && Kept(r.table, r.collected) == Kept(s.table, s.collected) - multiset{e}
      && Live(r.recent, r.collected) <= Live(s.recent, s.collected)
  {
    hide Kept, Live, Locs;
    var r := Erased(h, s, e);
    var locs := Locs(h, |s.table|, e);
    var k := First(locs, Holding(s, e));
    if k == 8 {
      NotFound(h, s, e);
      Minus(Kept(r.table, r.collected), Kept(s.table, s.collected), e, multiset{});
    } else {
      var i := locs[k];
      assert s.table[i := e] == s.table && s.recent[i := s.recent[i]] == s.recent;
      KeptUpdate(s.table, s.collected, i, e, true);
      LiveUpdate(s.recent, s.collected, i, s.recent[i], true);
      if e in Kept(s.table, s.collected) {
        FoundIsKept(h, s, e);
      }
      Minus(Kept(r.table, r.collected), Kept(s.table, s.collected), e, Slot(s.table[i], s.collected[i]));
    }
  }

  lemma {:induction false} KeptUpTo(h: Hash, s: State, n: nat, e: Element)
    requires Placement(h, s) && n <= |s.table|
    ensures Kept(s.table[..n], s.collected[..n])[e] <= 1
  {
    if n > 0 {
      KeptUpTo(h, s, n - 1, e);
      assert s.table[..n][..n - 1] == s.table[..n - 1] && s.collected[..n][..n - 1] == s.collected[..n - 1];
      if e in Kept(s.table[..n - 1], s.collected[..n - 1]) && e in Slot(s.table[n - 1], s.collected[n - 1]) {
        var i := KeptWhere(s.table[..n - 1], s.collected[..n - 1], e);
        KeptOnce(h, s, i, n - 1);
      }
    }
  }

  // No element is kept twice.
  lemma KeptIsASet(h: Hash, s: State, e: Element)
    requires Placement(h, s)
    ensures Kept(s.table, s.collected)[e] <= 1
  {
    KeptUpTo(h, s, |s.table|, e);
    assert s.table[..|s.table|] == s.table && s.collected[..|s.table|] == s.collected;
  }

  // contains with erase gives up exactly the element asked for.
  lemma ErasedEffect(h: Hash, s: State, e: Element)
    requires Inv(h, s)
    ensures
      var r := Erased(h, s, e);
      && Inv(h, r) && r.table == s.table
      && Kept(r.table, r.collected) == Kept(s.table, s.collected) - multiset{e}
      && e !in Kept(r.table, r.collected)
  {
    ErasedKeeps(h, s, e);
    ErasedSums(h, s, e);
    KeptIsASet(h, s, e);
  }

  // ------------------------------------------------------------------------- runs

  datatype Op = InsertOp(e: Element) | ContainsOp(e: Element, erase: bool)

  function Apply(h: Hash, s: State, op: Op): State
    requires Shape(s)
  {
    match op
    case InsertOp(e) => Insert(h, s, e)
    case ContainsOp(e, erase) => if erase then Erased(h, s, e) else s
  }

  ghost predicate Reaches(h: Hash, s: State, ops: seq<Op>, r: State)
    requires Shape(s)
    decreases ops
  {
    if ops == [] then r == s
    else Shape(Apply(h, s, ops[0])) && Reaches(h, Apply(h, s, ops[0]), ops[1..], r)
  }

  lemma SetupInv(h: Hash, depth: nat)
    requires 1 <= depth <= 31
    ensures
      var s := Setup(depth);
      Inv(h, s) && Kept(s.table, s.collected) == multiset{} && Live(s.recent, s.collected) == 0
  {
    var s := Setup(depth);
    Pow2Table();
    Pow2Grows(depth, 31);
    NothingKept(s.table, s.collected);
    NothingLive(s.recent, s.collected);
  }

  lemma {:induction false} RunKeeps(h: Hash, s: State, ops: seq<Op>, r: State)
    requires Inv(h, s) && Reaches(h, s, ops, r)
    ensures Inv(h, r)
    decreases ops
  {
    if ops != [] {
      match ops[0] {
        case InsertOp(e) => var _ := InsertEffect(h, s, e);
        case ContainsOp(e, erase) => ErasedEffect(h, s, e);
      }
      hide Inv, Apply;
      RunKeeps(h, Apply(h, s, ops[0]), ops[1..], r);
    }
  }

  lemma {:induction false} RunDepth(h: Hash, s: State, ops: seq<Op>, r: State)
    requires Inv(h, s) && Reaches(h, s, ops, r)
    ensures Shape(r) && r.depthLimit == s.depthLimit
    decreases ops
  {
    if ops != [] {
      match ops[0] {
        case InsertOp(e) => var _ := InsertEffect(h, s, e);
        case ContainsOp(e, erase) => ErasedEffect(h, s, e);
      }
      hide Inv, Insert, Inserted;
      RunDepth(h, Apply(h, s, ops[0]), ops[1..], r);
    }
  }

  // In every run after setup, contains finds what was inserted just before, if one of its slots was
  // garbage or it was there already; and so it does right after setup.
  lemma InsertedIsFound(h: Hash, depth: nat, ops: seq<Op>, s: State, e: Element)
    requires 1 <= depth <= 31 && Shape(Setup(depth)) && Reaches(h, Setup(depth), ops, s)
    ensures Shape(s)
    ensures
      var c := EpochCheck(s);
      !AllLive(h, c, e) || e in Kept(c.table, c.collected) || ops == [] ==> Contains(h, Insert(h, s, e), e)
  {
    SetupInv(h, depth);
    RunKeeps(h, Setup(depth), ops, s);
    RunDepth(h, Setup(depth), ops, s);
    InsertStores(h, s, e);
    if ops == [] {
      AllGarbage(h, depth, e);
    }
    hide Insert, EpochCheck, Contains, AllLive, Inv;
  }

  lemma AllGarbage(h: Hash, depth: nat, e: Element)
    requires Shape(Setup(depth))
    ensures !AllLive(h, EpochCheck(Setup(depth)), e)
  {
    var c := EpochCheck(Setup(depth));
    var i := Locs(h, |c.table|, e)[0];
    assert i in Locs(h, |c.table|, e) && c.collected[i];
  }

  // In every run after setup, whatever the depth, the current epoch stays bounded, and contains
  // finds what is kept.
  lemma EpochIsBounded(h: Hash, depth: nat, ops: seq<Op>, r: State)
    requires 1 <= depth <= 31 && Shape(Setup(depth)) && Reaches(h, Setup(depth), ops, r)
    ensures Shape(r) && Live(r.recent, r.collected) <= r.epochSize + Max(1, r.epochSize / 16)
    ensures forall e | e in Kept(r.table, r.collected) :: Contains(h, r, e)
  {
    SetupInv(h, depth);
    RunKeeps(h, Setup(depth), ops, r);
    forall e | e in Kept(r.table, r.collected)
      ensures Contains(h, r, e)
    {
      ContainsKept(h, r, e);
    }
  }
}
