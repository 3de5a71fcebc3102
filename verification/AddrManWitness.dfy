/**
 Runs of the address manager from construction that reach the states in which its weaker
 promises fail: an address Add_ returns true for and does not keep, a recorded collision that
 outlives Clear, and one that outlives reading another manager.
 */
module AddrManWitness {
  import opened Options
  import opened AddrManState
  import opened AddrManOps
  import opened AddrManAdd
  import opened AddrManRun
  import opened AddrManSerial

  // All addresses share one tried slot; the low bits of an address give its one new slot.
  function SmallNet(): Network {
    Network((p: Preimage) => if p.Position? && p.fNew then p.service.addr.ip else 0, _ => 0, _ => true, _ => true)
  }

  const TIME := 1000000

  function ServiceOf(ip: nat): Service { Service(NetAddr(ip), 1) }
  function AddressOf(ip: nat): Address { Address(ServiceOf(ip), 0, TIME) }
  function NewSlotOf(ip: nat): Slot { Slot(0, ip % BUCKET_SIZE) }
  function Adding(ip: nat): Op { OpAdd(AddressOf(ip), NetAddr(9), 0, TIME, 0) }
  function Connecting(ip: nat): Op { OpGood(ServiceOf(ip), true, TIME) }

  lemma SlotsOf(key: nat, ip: nat)
    ensures NewSlot(SmallNet(), key, ServiceOf(ip), NetAddr(9)) == NewSlotOf(ip)
    ensures TriedSlot(SmallNet(), key, ServiceOf(ip)) == Slot(0, 0)
  {
  }

  lemma RunStep(net: Network, s: State, op: Op, ops: seq<Op>)
    requires Inv(net, s)
    ensures Inv(net, Apply(net, s, op)) && Run(net, s, [op] + ops) == Run(net, Apply(net, s, op), ops)
  {
    hide Inv, Apply;
    ApplyKeeps(net, s, op);
    assert ([op] + ops)[1..] == ops;
  }

  // An unknown address whose new slot is free is kept under the next id.
  lemma AddedFree(s: State, ip: nat) returns (r: State)
    requires Inv(SmallNet(), s) && NetAddr(ip) !in s.mapAddr && NewSlotOf(ip) !in s.vvNew
    ensures r == Apply(SmallNet(), s, Adding(ip)) && Inv(SmallNet(), r)
    ensures r == AddRef(Created(s, AddressOf(ip), NetAddr(9), 0), s.nIdCount, NewSlotOf(ip))
  {
    SlotsOf(s.nKey, ip);
    ApplyKeeps(SmallNet(), s, Adding(ip));
    UnknownInsertable(SmallNet(), s, AddressOf(ip), NetAddr(9), 0, TIME);
    r := Apply(SmallNet(), s, Adding(ip));
  }

  lemma FirstAdded(key: nat) returns (s: State)
    ensures Inv(SmallNet(), Fresh(key)) && s == Apply(SmallNet(), Fresh(key), Adding(1)) && Inv(SmallNet(), s)
    ensures s.nKey == key && s.nIdCount == 1 && s.vvTried == map[] && s.vvNew == map[NewSlotOf(1) := 0]
    ensures s.mapAddr == map[NetAddr(1) := 0] && s.mapInfo.Keys == {0} && s.triedCollisions == {}
    ensures s.mapInfo[0].address == AddressOf(1) && s.mapInfo[0].nRefCount == 1 && !s.mapInfo[0].fInTried
    ensures s.mapInfo[0].nAttempts == 0
  {
    FreshInv(SmallNet(), key);
    hide Inv;
    s := AddedFree(Fresh(key), 1);
  }

  // An address Add_ returns true for without keeping it.
  lemma AddedIsLost(key: nat) returns (s: State)
    ensures Inv(SmallNet(), Fresh(key)) && s == Run(SmallNet(), Fresh(key), [Adding(1)]) && Inv(SmallNet(), s)
    ensures AddReturns(SmallNet(), s, AddressOf(65))
    ensures NetAddr(65) !in Apply(SmallNet(), s, Adding(65)).mapAddr
  {
    s := FirstAdded(key);
    RunStep(SmallNet(), Fresh(key), Adding(1), []);
    hide Inv;
    SlotsOf(key, 65);
    assert NewSlotOf(65) == NewSlotOf(1);
    UnknownKeptIff(SmallNet(), s, AddressOf(65), NetAddr(9), 0, TIME, 0);
  }

  // A connection to a known address that is not tried yet promotes it.
  lemma GoodPromotes(net: Network, s: State, id: int, service: Service) returns (touched: State)
    requires Inv(net, s) && id in s.mapInfo && !s.mapInfo[id].fInTried
    requires service.addr in s.mapAddr && s.mapAddr[service.addr] == id && s.mapInfo[id].Service() == service
    ensures touched == GoodTouched(s, id, TIME) && Inv(net, touched) && !touched.mapInfo[id].fInTried
    ensures Good(net, s, service, true, TIME) == Promote(net, touched, id, true)
  {
    hide Inv, Promote, ScanNew;
    touched := GoodTouched(s, id, TIME);
    TouchKeeps(net, s, touched, id, Succeeded(s.mapInfo[id], TIME));
    NoBailOut(net, touched, id);
  }

  // The first address moves into the tried slot all addresses share.
  lemma FirstTried(key: nat, s: State) returns (r: State)
    requires Inv(SmallNet(), s) && s.nKey == key && s.nIdCount == 1 && s.vvTried == map[]
    requires s.mapAddr == map[NetAddr(1) := 0] && s.mapInfo.Keys == {0} && s.triedCollisions == {}
    requires s.mapInfo[0].address == AddressOf(1) && !s.mapInfo[0].fInTried
    ensures r == Apply(SmallNet(), s, Connecting(1)) && Inv(SmallNet(), r)
    ensures r.nKey == key && r.nIdCount == 1 && r.vvTried == map[Slot(0, 0) := 0] && r.triedCollisions == {}
    ensures r.mapInfo.Keys == {0} && r.mapInfo[0].Service() == ServiceOf(1) && r.mapInfo[0].fInTried
  {
    SlotsOf(key, 1);
    ApplyKeeps(SmallNet(), s, Connecting(1));
    r := Apply(SmallNet(), s, Connecting(1));
    hide Inv, Good, Triable, MakeTried, TriedSlot, NewSlot, RecordsKept, ForgetsOnly;
    var touched := GoodPromotes(SmallNet(), s, 0, ServiceOf(1));
    BetweenOf(SmallNet(), touched);
    MakeTriedEffect(SmallNet(), touched, 0);
    MakeTriedForgets(SmallNet(), touched, 0);
  }

  lemma BetweenOf(net: Network, s: State)
    requires Inv(net, s)
    ensures Between(net, s, {}, 0)
  {
  }

  // With the only entry tried there is nothing in the new table and no other address known.
  lemma OnlyTried(s: State)
    requires Inv(SmallNet(), s) && s.mapInfo.Keys == {0} && s.mapInfo[0].fInTried
    requires s.mapInfo[0].Service() == ServiceOf(1)
    ensures s.vvNew == map[] && NetAddr(2) !in s.mapAddr
  {
    assert forall slot | slot in s.vvNew :: NewPlacedAt(SmallNet(), s, slot);
    assert forall id :: id in s.mapInfo ==> id == 0;
  }

  // A connection to a second address, found in the new table, is recorded as a collision.
  lemma SecondCollides(key: nat, s: State) returns (r: State)
    requires Inv(SmallNet(), s) && s.nKey == key && s.triedCollisions == {}
    requires Slot(0, 0) in s.vvTried && 1 in s.mapInfo && !s.mapInfo[1].fInTried
    requires NetAddr(2) in s.mapAddr && s.mapAddr[NetAddr(2)] == 1 && s.mapInfo[1].Service() == ServiceOf(2)
    ensures r == Apply(SmallNet(), s, Connecting(2)) && Inv(SmallNet(), r)
    ensures r.triedCollisions == {1}
  {
    SlotsOf(key, 2);
    ApplyKeeps(SmallNet(), s, Connecting(2));
    r := Apply(SmallNet(), s, Connecting(2));
    hide Inv, Good, TriedSlot, NewSlot;
    var touched := GoodPromotes(SmallNet(), s, 1, ServiceOf(2));
  }

  function CollidingRun(): seq<Op> {
    [Adding(1), Connecting(1), Adding(2), Connecting(2)]
  }

  lemma CollisionReached(key: nat) returns (s: State)
    ensures Inv(SmallNet(), Fresh(key)) && s == Run(SmallNet(), Fresh(key), CollidingRun()) && Inv(SmallNet(), s)
    ensures s.triedCollisions == {1}
  {
    hide Inv, Apply, Run;
    var added := FirstAdded(key);
    var tried := FirstTried(key, added);
    OnlyTried(tried);
    var second := AddedFree(tried, 2);
    s := SecondCollides(key, second);
    RunFour(SmallNet(), Fresh(key), Adding(1), Connecting(1), Adding(2), Connecting(2));
  }

  lemma RunTwo(net: Network, s: State, a: Op, b: Op)
    requires Inv(net, s)
    ensures Inv(net, Apply(net, s, a))
    ensures Run(net, s, [a, b]) == Apply(net, Apply(net, s, a), b)
  {
    hide Inv, Apply;
    assert [a, b] == [a] + [b] && [b] == [b] + [];
    RunStep(net, s, a, [b]);
    RunStep(net, Apply(net, s, a), b, []);
  }

  lemma RunFour(net: Network, s: State, a: Op, b: Op, c: Op, d: Op)
    requires Inv(net, s)
    ensures Inv(net, Apply(net, s, a))
    ensures Inv(net, Apply(net, Apply(net, s, a), b))
    ensures Inv(net, Apply(net, Apply(net, Apply(net, s, a), b), c))
    ensures Run(net, s, [a, b, c, d]) == Apply(net, Apply(net, Apply(net, Apply(net, s, a), b), c), d)
  {
    hide Inv, Apply, Run;
    assert [a, b, c, d] == [a] + [b, c, d] && [b, c, d] == [b] + [c, d];
    RunStep(net, s, a, [b, c, d]);
    RunStep(net, Apply(net, s, a), b, [c, d]);
    RunTwo(net, Apply(net, Apply(net, s, a), b), c, d);
  }

  // Clear after that run leaves a collision for an id that does not exist.
  lemma ClearBreaks(key: nat, next: nat) returns (s: State)
    ensures Inv(SmallNet(), Fresh(key)) && s == Run(SmallNet(), Fresh(key), CollidingRun()) && Inv(SmallNet(), s)
    ensures !Inv(SmallNet(), Clear(s, next))
  {
    s := CollisionReached(key);
    hide Inv, Run;
    ClearKeepsIff(SmallNet(), s, next);
  }

  // Reading a manager that knows the same two addresses, neither of them tried, leaves the
  // collision pointing at an entry whose tried slot is empty: looking it up yields -1.
  lemma ReadingBreaks(key: nat, other: nat) returns (prior: State, s: State, r: State)
    ensures Inv(SmallNet(), Fresh(key)) && prior == Run(SmallNet(), Fresh(key), CollidingRun())
    ensures Inv(SmallNet(), Fresh(other)) && s == Run(SmallNet(), Fresh(other), [Adding(1), Adding(2)])
    ensures Unserialize(SmallNet(), prior, Serialize(s)) == Some(r)
    ensures !Inv(SmallNet(), r) && 1 in r.triedCollisions && 1 in r.mapInfo && LookedUp(SmallNet(), r, 1) == -1
  {
    hide Inv, Apply, Run, Written, Serialize, Unserialize, ReadAll, TriedSlot, SameUpTo, Lists;
    prior := CollisionReached(key);
    var added := FirstAdded(other);
    s := AddedFree(added, 2);
    RunTwo(SmallNet(), Fresh(other), Adding(1), Adding(2));
    r := RoundTrip(SmallNet(), s, prior);
    TwoWritten(s);
    StaleLookup(SmallNet(), s, r, Written(s), 1);
  }

  lemma TwoWritten(s: State)
    requires Inv(SmallNet(), s) && s.mapInfo.Keys == {0, 1}
    ensures |Written(s)| == 2
  {
    hide Inv, Written, Lists;
    WrittenFacts(SmallNet(), s);
    CountsOf(SmallNet(), s);
    var news, tried := NewIds(s), TriedIds(s);
    assert forall id :: id in s.mapInfo <==> id in {0, 1};
    assert news !! tried && news + tried == {0, 1};
    assert |news + tried| == |news| + |tried|;
  }
}
