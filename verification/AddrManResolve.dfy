/**
 What ResolveCollisions_ of src/addrman.cpp decides about each recorded collision, and what it
 leaves alone.
 */
module AddrManResolve {
  import opened AddrManState
  import opened AddrManOps
  import opened AddrManRun
  import opened AddrManEffects

  // The occupant of a tried slot has to go: no success for four hours, and tried in the last four hours
  // but not in the last minute.
  predicate Replaceable(old_: Info, now: int) {
    now - old_.nLastSuccess >= 14400 && 60 < now - old_.nLastTry < 14400
  }

  // It stays: it had a success in the last four hours.
  predicate Fresh4h(old_: Info, now: int) {
    now - old_.nLastSuccess < 14400
  }

  // A known, valid address and the known occupant of its tried slot.
  ghost predicate Contested(net: Network, s: State, id: int, out: int) {
    && id in s.mapInfo && net.isValid(s.mapInfo[id].Addr()) && out in s.mapInfo
    && Holds(s.vvTried, TriedSlot(net, s.nKey, s.mapInfo[id].Service()), out)
  }

  ghost predicate Wins(net: Network, s: State, id: int, now: int) {
    exists out :: Contested(net, s, id, out) && Replaceable(s.mapInfo[out], now)
  }

  // The collision is settled: the address is unknown or invalid, the occupant stays, or it has to go.
  ghost predicate Leaves(net: Network, s: State, id: int, now: int) {
    || id !in s.mapInfo
    || !net.isValid(s.mapInfo[id].Addr())
    || (exists out :: Contested(net, s, id, out) && (Fresh4h(s.mapInfo[out], now) || Replaceable(s.mapInfo[out], now)))
  }

  lemma OneOccupant(net: Network, s: State, id: int, out: int)
    requires Contested(net, s, id, out)
    ensures forall k | Contested(net, s, id, k) :: k == out
  {
  }

  lemma Contest(net: Network, s: State, id: int) returns (out: int)
    requires Inv(net, s) && id in s.triedCollisions && id in s.mapInfo && net.isValid(s.mapInfo[id].Addr())
    ensures Contested(net, s, id, out) && s.mapInfo[out].fInTried
  {
    CollisionIsReal(net, s, id);
    var slot := TriedSlot(net, s.nKey, s.mapInfo[id].Service());
    OccupantKnown(net, s, slot);
    out := s.vvTried[slot];
  }

  // What happens to the address that wins.
  ghost predicate Won(net: Network, s: State, r: State, id: int, now: int) {
    && id in s.mapInfo && id in r.mapInfo
    && MarkedGood(s.mapInfo[id], r.mapInfo[id], now) && OthersKept(s, r, id) && r.nKey == s.nKey
    && (if s.mapInfo[id].fInTried then r.vvTried == s.vvTried
        else MovedToTried(net, s, r.(triedCollisions := s.triedCollisions), id))
  }

  lemma GoodWins(net: Network, s: State, id: int, now: int)
    requires Inv(net, s) && id in s.mapInfo
    ensures
      var r := Dropped(Good(net, s, s.mapInfo[id].Service(), false, now), id);
      Won(net, s, r, id, now) && r.triedCollisions == s.triedCollisions - {id}
  {
    GoodEffect(net, s, id, false, now);
    GoodKeeps(net, s, s.mapInfo[id].Service(), false, now);
    hide Inv, Good, TriedSlot, NewAfterTried;
  }

  // One turn: nothing but the collision changes, unless the address wins.
  lemma Turn(net: Network, s: State, id: int, now: int)
    requires Inv(net, s) && id in s.triedCollisions
    ensures
      var r := ResolveOne(net, s, id, now);
      && r.triedCollisions == (if Leaves(net, s, id, now) then s.triedCollisions - {id} else s.triedCollisions)
      && (if Wins(net, s, id, now) then Won(net, s, r, id, now) else r == s.(triedCollisions := r.triedCollisions))
  {
    hide Inv, Good, TriedSlot, Won;
    if id in s.mapInfo && net.isValid(s.mapInfo[id].Addr()) {
      var out := Contest(net, s, id);
      OneOccupant(net, s, id, out);
      GoodWins(net, s, id, now);
    }
  }

  // -------------------------------------------------------------------- all turns

  // Recorded ids are visited in increasing order: the state when the turn of one comes.
  ghost function WhenTurn(net: Network, s: State, todo: set<int>, id: int, now: int): State
    requires Inv(net, s)
  {
    ResolveFrom(net, s, Below(todo, id), now)
  }

  ghost function Below(todo: set<int>, id: int): set<int> {
    set k | k in todo && k < id
  }

  ghost function Above(todo: set<int>, id: int): set<int> {
    set k | k in todo && k > id
  }

  lemma FirstTurn(net: Network, s: State, todo: set<int>, m: int, now: int)
    requires Inv(net, s) && Least(m, todo)
    ensures Inv(net, ResolveOne(net, s, m, now))
    ensures ResolveFrom(net, s, todo, now) == ResolveFrom(net, ResolveOne(net, s, m, now), todo - {m}, now)
  {
    hide Inv;
    LeastUnique(todo, m);
    ResolveOneKeeps(net, s, m, now);
  }

  // All turns are those before, the one of the id, and those after.
  lemma {:induction false} TurnsSplit(net: Network, s: State, todo: set<int>, id: int, now: int)
    requires Inv(net, s) && id in todo
    ensures
      var t := WhenTurn(net, s, todo, id, now);
      && Inv(net, t) && Inv(net, ResolveOne(net, t, id, now))
      && ResolveFrom(net, s, todo, now) == ResolveFrom(net, ResolveOne(net, t, id, now), Above(todo, id), now)
    decreases |todo|
  {
    hide Inv, ResolveOne;
    LeastExists(todo);
    var m :| Least(m, todo);
    FirstTurn(net, s, todo, m, now);
    if m == id {
      assert Below(todo, id) == {};
      assert todo - {m} == Above(todo, id);
    } else {
      var next := ResolveOne(net, s, m, now);
      TurnsSplit(net, next, todo - {m}, id, now);
      assert Least(m, Below(todo, id));
      FirstTurn(net, s, Below(todo, id), m, now);
      assert Below(todo, id) - {m} == Below(todo - {m}, id);
      assert Above(todo, id) == Above(todo - {m}, id);
    }
  }

  // Turns touch their own collision only.
  lemma {:induction false} OtherCollisions(net: Network, s: State, todo: set<int>, now: int)
    requires Inv(net, s) && todo <= s.triedCollisions
    ensures
      var r := ResolveFrom(net, s, todo, now);
      r.triedCollisions <= s.triedCollisions && s.triedCollisions - todo <= r.triedCollisions
    decreases |todo|
  {
    hide Inv, ResolveOne, Won, Wins, Leaves;
    if todo != {} {
      LeastExists(todo);
      var m :| Least(m, todo);
      FirstTurn(net, s, todo, m, now);
      Turn(net, s, m, now);
      OtherCollisions(net, ResolveOne(net, s, m, now), todo - {m}, now);
    }
  }

  lemma FreshTurn(net: Network, s: State, r: State, m: int, x: Slot, o: int, now: int)
    requires Inv(net, s) && Inv(net, r) && Holds(s.vvTried, x, o) && o in s.mapInfo && Fresh4h(s.mapInfo[o], now)
    requires if Wins(net, s, m, now) then Won(net, s, r, m, now) else r == s.(triedCollisions := r.triedCollisions)
    ensures Holds(r.vvTried, x, o) && o in r.mapInfo && Fresh4h(r.mapInfo[o], now)
  {
    hide Inv, Won;
    if Wins(net, s, m, now) {
      var out :| Contested(net, s, m, out) && Replaceable(s.mapInfo[out], now);
      SlotStays(net, s, r, m, out, x, o, now);
      OccupantKnown(net, r, x);
      RecordStays(net, s, r, m, o, now);
    }
  }

  // The slot won is another one.
  lemma SlotStays(net: Network, s: State, r: State, m: int, out: int, x: Slot, o: int, now: int)
    requires Holds(s.vvTried, x, o) && o in s.mapInfo && Fresh4h(s.mapInfo[o], now) && Won(net, s, r, m, now)
    requires Contested(net, s, m, out) && Replaceable(s.mapInfo[out], now)
    ensures Holds(r.vvTried, x, o)
  {
    hide TriedSlot, NewAfterTried, MarkedGood, OthersKept;
  }

  lemma RecordStays(net: Network, s: State, r: State, m: int, o: int, now: int)
    requires o in s.mapInfo && o in r.mapInfo && Fresh4h(s.mapInfo[o], now) && Won(net, s, r, m, now)
    ensures Fresh4h(r.mapInfo[o], now)
  {
    hide TriedSlot, MovedToTried;
    if o != m {
      assert Record(r.mapInfo[o]) == Record(s.mapInfo[o]);
    }
  }

  // An occupant that stays is there to the end.
  lemma {:induction false} StaysFresh(net: Network, s: State, todo: set<int>, x: Slot, o: int, now: int)
    requires Inv(net, s) && todo <= s.triedCollisions
    requires Holds(s.vvTried, x, o) && o in s.mapInfo && Fresh4h(s.mapInfo[o], now)
    ensures
      var r := ResolveFrom(net, s, todo, now);
      Holds(r.vvTried, x, o) && o in r.mapInfo && Fresh4h(r.mapInfo[o], now)
    decreases |todo|
  {
    hide Inv, ResolveOne, Won, Wins, Leaves, Fresh4h;
    if todo != {} {
      LeastExists(todo);
      var m :| Least(m, todo);
      FirstTurn(net, s, todo, m, now);
      Turn(net, s, m, now);
      var next := ResolveOne(net, s, m, now);
      FreshTurn(net, s, next, m, x, o, now);
      StaysFresh(net, next, todo - {m}, x, o, now);
    }
  }

  // Nobody enters the tried table but in its own turn.
  lemma {:induction false} NotEntering(net: Network, s: State, todo: set<int>, x: Slot, o: int, now: int)
    requires Inv(net, s) && todo <= s.triedCollisions && o !in todo && !Holds(s.vvTried, x, o)
    ensures !Holds(ResolveFrom(net, s, todo, now).vvTried, x, o)
    decreases |todo|
  {
    hide Inv, ResolveOne, Wins, Leaves, TriedSlot, NewAfterTried;
    if todo != {} {
      LeastExists(todo);
      var m :| Least(m, todo);
      FirstTurn(net, s, todo, m, now);
      Turn(net, s, m, now);
      NotEntering(net, ResolveOne(net, s, m, now), todo - {m}, x, o, now);
    }
  }

  // The id sits in its tried slot.
  ghost predicate IsIn(net: Network, s: State, id: int, slot: Slot) {
    Holds(s.vvTried, slot, id) && id in s.mapInfo && s.mapInfo[id].fInTried
  }

  // Each recorded collision is decided by the occupant of the tried slot when its turn comes. It is
  // dropped if the address is unknown or invalid, or the occupant stays or has to go. An address that
  // was not tried ends up in its tried slot, with the occupant out of the tried table, exactly if the
  // occupant has to go.
  lemma ResolveEffect(net: Network, s: State, id: int, now: int)
    requires Inv(net, s) && id in s.triedCollisions
    ensures
      var t := WhenTurn(net, s, s.triedCollisions, id, now);
      var r := ResolveCollisions(net, s, now);
      && Inv(net, t) && id in t.triedCollisions
      && r.triedCollisions <= s.triedCollisions && (id in r.triedCollisions <==> !Leaves(net, t, id, now))
      && forall out | Contested(net, t, id, out) && !t.mapInfo[id].fInTried ::
           var slot := TriedSlot(net, t.nKey, t.mapInfo[id].Service());
           && (IsIn(net, r, id, slot) <==>
                 now - t.mapInfo[out].nLastSuccess >= 14400 && 60 < now - t.mapInfo[out].nLastTry < 14400)
           && (IsIn(net, r, id, slot) ==> out in r.mapInfo ==> !r.mapInfo[out].fInTried)
  {
    var t := WhenTurn(net, s, s.triedCollisions, id, now);
    var r := ResolveCollisions(net, s, now);
    hide Inv, ResolveOne, Wins, Won, Leaves, TriedSlot, ResolveFrom;
    TurnsSplit(net, s, s.triedCollisions, id, now);
    var next := ResolveOne(net, t, id, now);
    OtherCollisions(net, s, s.triedCollisions, now);
    OtherCollisions(net, s, Below(s.triedCollisions, id), now);
    assert id in t.triedCollisions;
    Turn(net, t, id, now);
    AboveRecorded(s, t, next, id);
    OtherCollisions(net, next, Above(s.triedCollisions, id), now);
    forall out | Contested(net, t, id, out) && !t.mapInfo[id].fInTried
      ensures
        var slot := TriedSlot(net, t.nKey, t.mapInfo[id].Service());
        && (IsIn(net, r, id, slot) <==> Replaceable(t.mapInfo[out], now))
        && (IsIn(net, r, id, slot) ==> out in r.mapInfo ==> !r.mapInfo[out].fInTried)
    {
      Decided(net, t, next, r, id, out, Above(s.triedCollisions, id), now);
    }
  }

  lemma AboveRecorded(s: State, t: State, next: State, id: int)
    requires s.triedCollisions - Below(s.triedCollisions, id) <= t.triedCollisions
    requires t.triedCollisions - {id} <= next.triedCollisions
    ensures Above(s.triedCollisions, id) <= next.triedCollisions
  {
  }

  lemma Decided(net: Network, t: State, next: State, r: State, id: int, out: int, rest: set<int>, now: int)
    requires Inv(net, t) && Inv(net, next) && rest <= next.triedCollisions && id !in rest
    requires r == ResolveFrom(net, next, rest, now)
    requires Contested(net, t, id, out) && !t.mapInfo[id].fInTried
    requires if Wins(net, t, id, now) then Won(net, t, next, id, now) else next == t.(triedCollisions := next.triedCollisions)
    ensures
      var slot := TriedSlot(net, t.nKey, t.mapInfo[id].Service());
      && (IsIn(net, r, id, slot) <==> Replaceable(t.mapInfo[out], now))
      && (IsIn(net, r, id, slot) ==> out in r.mapInfo ==> !r.mapInfo[out].fInTried)
  {
    var slot := TriedSlot(net, t.nKey, t.mapInfo[id].Service());
    hide Inv, TriedSlot, NewAfterTried, ResolveFrom;
    OneOccupant(net, t, id, out);
    OccupantKnown(net, t, slot);
    if Replaceable(t.mapInfo[out], now) {
      StaysFresh(net, next, rest, slot, id, now);
      ResolveFromKeeps(net, next, rest, now);
      OccupantKnown(net, r, slot);
      OutOfTried(net, t, next, r, id, out, slot);
    } else {
      NotEntering(net, next, rest, slot, id, now);
    }
  }

  lemma OutOfTried(net: Network, t: State, next: State, r: State, id: int, out: int, slot: Slot)
    requires Inv(net, t) && Inv(net, r) && Follows(next, r) && OthersKept(t, next, id) && next.nKey == t.nKey
    requires Holds(t.vvTried, slot, out) && Holds(r.vvTried, slot, id) && out != id
    requires out in next.mapInfo && Inv(net, next)
    ensures out in r.mapInfo ==> !r.mapInfo[out].fInTried
  {
    assert TriedPlacedAt(net, t, slot);
    IdBelowCount(net, next, out);
    assert Record(next.mapInfo[out]) == Record(t.mapInfo[out]);
  }

  // ------------------------------------------------------------------ nobody wins

  lemma {:induction false} NobodyMoves(net: Network, s: State, todo: set<int>, now: int)
    requires Inv(net, s) && todo <= s.triedCollisions && forall id | id in todo :: !Wins(net, s, id, now)
    ensures
      var r := ResolveFrom(net, s, todo, now);
      && r == s.(triedCollisions := r.triedCollisions)
      && forall id | id in s.triedCollisions ::
           id in r.triedCollisions <==> id !in todo || !Leaves(net, s, id, now)
    decreases |todo|
  {
    hide Inv, ResolveOne, Wins, Won, Leaves;
    if todo != {} {
      LeastExists(todo);
      var m :| Least(m, todo);
      FirstTurn(net, s, todo, m, now);
      Turn(net, s, m, now);
      var next := ResolveOne(net, s, m, now);
      forall id
        ensures Wins(net, next, id, now) == Wins(net, s, id, now) && Leaves(net, next, id, now) == Leaves(net, s, id, now)
      {
        SameContest(net, s, next, id, now);
      }
      NobodyMoves(net, next, todo - {m}, now);
      OtherCollisions(net, next, todo - {m}, now);
    }
  }

  lemma SameContest(net: Network, s: State, r: State, id: int, now: int)
    requires r == s.(triedCollisions := r.triedCollisions)
    ensures Wins(net, r, id, now) == Wins(net, s, id, now) && Leaves(net, r, id, now) == Leaves(net, s, id, now)
  {
    hide TriedSlot;
    forall out
      ensures Contested(net, r, id, out) == Contested(net, s, id, out)
    {
    }
  }

  // If no recorded address has an occupant that has to go, nothing changes but the collisions.
  lemma NothingResolved(net: Network, s: State, now: int)
    requires Inv(net, s) && forall id | id in s.triedCollisions :: !Wins(net, s, id, now)
    ensures
      var r := ResolveCollisions(net, s, now);
      r == s.(triedCollisions := set id | id in s.triedCollisions && !Leaves(net, s, id, now))
  {
    hide Inv, Wins, Leaves, ResolveFrom;
    NobodyMoves(net, s, s.triedCollisions, now);
    OtherCollisions(net, s, s.triedCollisions, now);
  }

  // The first in order is decided by the state as it is.
  lemma FirstIsDecidedNow(net: Network, s: State, id: int, now: int)
    requires Inv(net, s) && Least(id, s.triedCollisions)
    ensures WhenTurn(net, s, s.triedCollisions, id, now) == s
  {
    assert Below(s.triedCollisions, id) == {};
  }
}
