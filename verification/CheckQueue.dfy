/**
 The parallel check queue of src/checkqueue.h: one master and any number of workers share a
 queue under a mutex and wait on two condition variables. A step is what one thread does
 between two releases of the mutex, or the execution of one check outside of it; condition
 variables may wake a waiting thread at any time.
 */
module CheckQueue {
  import opened Arith

  type Check = nat

  // ------------------------------------------------------------ critical section

  // The fields protected by the mutex.
  datatype Shared = Shared(queue: seq<Check>, nIdle: int, nTotal: int, fAllOk: bool, nTodo: int)

  // How a thread comes to the top of the inner loop: for the first time, with a finished
  // batch to account for, or out of wait().
  datatype Entry = First | Finished(nNow: nat, fOk: bool) | Woken

  // How it leaves the mutex again.
  datatype Exit = Return(result: bool) | Sleep | Work(batch: seq<Check>, fOk: bool)

  datatype Outcome = Outcome(shared: Shared, exit: Exit, notifyMaster: bool)

  // How many checks to take at once.
  function BatchSize(nBatchSize: nat, size: nat, nTotal: int, nIdle: int): (n: nat)
    requires size > 0 && nTotal + nIdle >= 0
    ensures 1 <= n <= size && n <= Max(1, nBatchSize)
  {
    Max(1, Min(nBatchSize, size / (nTotal + nIdle + 1)))
  }

  // Either one, or the largest number within the limit that leaves as many for each of the threads
  // and one more.
  lemma LargestShare(nBatchSize: nat, size: nat, nTotal: int, nIdle: int, k: nat)
    requires size > 0 && nTotal + nIdle >= 0
    ensures
      var n, parts := BatchSize(nBatchSize, size, nTotal, nIdle), nTotal + nIdle + 1;
      && (n > 1 ==> n <= nBatchSize && n * parts <= size)
      && (k <= nBatchSize && k * parts <= size ==> k <= n)
  {
    var parts := nTotal + nIdle + 1;
    var q := size / parts;
    DivMod(size, parts);
    if k > q {
      MulMonotone(q + 1, k, parts, parts);
      assert k * parts > size;
    }
    MulMonotone(BatchSize(nBatchSize, size, nTotal, nIdle), Max(1, q), parts, parts);
  }

  // The last n checks of the queue, taken from the back one by one.
  function TakenFrom(queue: seq<Check>, n: nat): (batch: seq<Check>)
    requires n <= |queue|
    ensures |batch| == n && forall i | 0 <= i < n :: batch[i] == queue[|queue| - 1 - i]
  {
    seq(n, i requires 0 <= i < n => queue[|queue| - 1 - i])
  }

  // Account for what was done before.
  function Accounted(s: Shared, entry: Entry): Shared {
    match entry
    case First => s.(nTotal := s.nTotal + 1)
    case Finished(nNow, fOk) => s.(fAllOk := s.fAllOk && fOk, nTodo := s.nTodo - nNow)
    case Woken => s.(nIdle := s.nIdle - 1)
  }

  // One passage through the mutex in Loop.
  function Pass(nBatchSize: nat, s: Shared, entry: Entry, fMaster: bool): Outcome
    requires Accounted(s, entry).nTotal + Accounted(s, entry).nIdle >= 0
  {
    var a := Accounted(s, entry);
    var notify := entry.Finished? && a.nTodo == 0 && !fMaster;
    if a.queue == [] then
      if fMaster && a.nTodo == 0
      then Outcome(a.(nTotal := a.nTotal - 1, fAllOk := true), Return(a.fAllOk), notify)
      else Outcome(a.(nIdle := a.nIdle + 1), Sleep, notify)
    else
      var n := BatchSize(nBatchSize, |a.queue|, a.nTotal, a.nIdle);
      Outcome(a.(queue := a.queue[..|a.queue| - n]), Work(TakenFrom(a.queue, n), a.fAllOk), notify)
  }

  // The queue object: its methods do in place what the functions above say.
  class CheckQueue {
    const nBatchSize: nat
    var queue: seq<Check>
    var nIdle: int
    var nTotal: int
    var fAllOk: bool
    var nTodo: int

    constructor (nBatchSizeIn: nat)
      ensures Abs() == Shared([], 0, 0, true, 0) && nBatchSize == nBatchSizeIn
    {
      nBatchSize := nBatchSizeIn;
      queue, nIdle, nTotal, fAllOk, nTodo := [], 0, 0, true, 0;
    }

    ghost function Abs(): Shared
      reads this
    {
      Shared(queue, nIdle, nTotal, fAllOk, nTodo)
    }

    // The batch is filled by swapping checks out of the back of the queue.
    method TakeBatch() returns (vChecks: seq<Check>)
      requires queue != [] && nTotal + nIdle >= 0
      modifies this`queue
      ensures
        var n := BatchSize(nBatchSize, |old(queue)|, nTotal, nIdle);
        vChecks == TakenFrom(old(queue), n) && queue == old(queue)[..|old(queue)| - n]
    {
      var nNow := Max(1, Min(nBatchSize, |queue| / (nTotal + nIdle + 1)));
      assert nNow == BatchSize(nBatchSize, |queue|, nTotal, nIdle);
      vChecks := [];
      for i := 0 to nNow
        invariant |vChecks| == i && queue == old(queue)[..|old(queue)| - i]
        invariant forall j | 0 <= j < i :: vChecks[j] == old(queue)[|old(queue)| - 1 - j]
      {
        vChecks := vChecks + [queue[|queue| - 1]];
        queue := queue[..|queue| - 1];
      }
    }

    // Loop from taking the mutex to releasing it. A thread that goes to sleep stops at
    // cond.wait; it comes back here as Woken.
    method Locked(entry: Entry, fMaster: bool) returns (exit: Exit, notifyMaster: bool)
      requires Accounted(Abs(), entry).nTotal + Accounted(Abs(), entry).nIdle >= 0
      modifies this
      ensures Outcome(Abs(), exit, notifyMaster) == Pass(nBatchSize, old(Abs()), entry, fMaster)
    {
      notifyMaster := false;
      match entry {
        case Finished(nNow, fOk) =>
          fAllOk := fAllOk && fOk;
          nTodo := nTodo - nNow;
          if nTodo == 0 && !fMaster {
            notifyMaster := true;
          }
        case First =>
          nTotal := nTotal + 1;
        case Woken =>
          nIdle := nIdle - 1;
      }
      if queue == [] {
        if fMaster && nTodo == 0 {
          nTotal := nTotal - 1;
          var fRet := fAllOk;
          fAllOk := true;
          return Return(fRet), notifyMaster;
        }
        nIdle := nIdle + 1;
        return Sleep, notifyMaster;
      }
      var vChecks := TakeBatch();
      exit := Work(vChecks, fAllOk);
    }

    method Add(vChecks: seq<Check>)
      modifies this
      ensures Abs() == Added(old(Abs()), vChecks)
    {
      for i := 0 to |vChecks|
        invariant Abs() == old(Abs()).(queue := old(queue) + vChecks[..i])
      {
        queue := queue + [vChecks[i]];
      }
      assert vChecks[..|vChecks|] == vChecks;
      nTodo := nTodo + |vChecks|;
    }

    method IsIdle() returns (idle: bool)
      ensures idle == Idle(Abs())
    {
      idle := nTotal == nIdle && nTodo == 0 && fAllOk == true;
    }
  }

  // Loop outside of the mutex: once a check failed the rest is skipped.
  method ExecuteBatch(passes: Check -> bool, vChecks: seq<Check>, fOkIn: bool) returns (fOk: bool)
    ensures fOk <==> fOkIn && forall i | 0 <= i < |vChecks| :: passes(vChecks[i])
  {
    fOk := fOkIn;
    for i := 0 to |vChecks|
      invariant fOk <==> fOkIn && forall j | 0 <= j < i :: passes(vChecks[j])
    {
      if fOk {
        fOk := passes(vChecks[i]);
      }
    }
  }

  function Added(s: Shared, checks: seq<Check>): Shared {
    s.(queue := s.queue + checks, nTodo := s.nTodo + |checks|)
  }

  predicate Idle(s: Shared) {
    s.nTotal == s.nIdle && s.nTodo == 0 && s.fAllOk
  }

  // --------------------------------------------------------------------- threads

  // Where a thread is: not in Loop, executing a batch, or in wait(), perhaps notified.
  datatype Thread = Outside | Working(batch: seq<Check>, next: nat, fOk: bool) | Waiting(notified: bool)

  // `added` and `done` record the checks added and accounted for since the last Wait returned.
  datatype System = System(
    nBatchSize: nat,
    shared: Shared,
    master: Thread,
    workers: seq<Thread>,
    added: multiset<Check>,
    done: multiset<Check>,
    result: bool)

  datatype Who = Master | Worker(i: nat)

  // Woken threads of a notify: none, or some of those waiting.
  datatype Step =
    | Add(checks: seq<Check>, woken: set<nat>)
    | Enter(who: Who)
    | Execute(who: Who)
    | Finish(who: Who)
    | Wake(who: Who)

  predicate Present(sys: System, who: Who) {
    who.Master? || who.i < |sys.workers|
  }

  function ThreadOf(sys: System, who: Who): Thread
    requires Present(sys, who)
  {
    match who
    case Master => sys.master
    case Worker(i) => sys.workers[i]
  }

  function WithThread(sys: System, who: Who, t: Thread): System
    requires Present(sys, who)
  {
    match who
    case Master => sys.(master := t)
    case Worker(i) => sys.(workers := sys.workers[i := t])
  }

  // A waiting thread that is notified.
  function Notified(t: Thread): Thread {
    if t.Waiting? then Waiting(true) else t
  }

  function NotifiedWorkers(workers: seq<Thread>, woken: set<nat>): (r: seq<Thread>)
    ensures |r| == |workers|
    ensures forall i | 0 <= i < |workers| :: r[i] == if i in woken then Notified(workers[i]) else workers[i]
  {
    seq(|workers|, i requires 0 <= i < |workers| => if i in woken then Notified(workers[i]) else workers[i])
  }

  // A batch may only be executed check by check; once one failed the rest is skipped.
  function Executed(passes: Check -> bool, t: Thread): Thread
    requires t.Working? && t.next < |t.batch|
  {
    t.(next := t.next + 1, fOk := t.fOk && passes(t.batch[t.next]))
  }

  function EntryOf(t: Thread): Entry {
    match t
    case Outside => First
    case Working(batch, _, fOk) => Finished(|batch|, fOk)
    case Waiting(_) => Woken
  }

  function ThreadAfter(exit: Exit): Thread {
    match exit
    case Return(_) => Outside
    case Sleep => Waiting(false)
    case Work(batch, fOk) => Working(batch, 0, fOk)
  }

  // Add notifies nobody, one worker or all of them.
  predicate MayWake(workers: seq<Thread>, count: nat, woken: set<nat>) {
    && (count == 0 ==> woken == {})
    && (count == 1 ==> |woken| <= 1)
    && (count > 1 ==> forall i | 0 <= i < |workers| :: i in woken)
  }

  predicate Enabled(sys: System, step: Step) {
    match step
    case Add(checks, woken) => sys.master.Outside? && MayWake(sys.workers, |checks|, woken)
    case Enter(who) => Present(sys, who) && ThreadOf(sys, who).Outside?
    case Execute(who) => Present(sys, who) && ThreadOf(sys, who).Working? && ThreadOf(sys, who).next < |ThreadOf(sys, who).batch|
    case Finish(who) => Present(sys, who) && ThreadOf(sys, who).Working? && ThreadOf(sys, who).next == |ThreadOf(sys, who).batch|
    case Wake(who) => Present(sys, who) && ThreadOf(sys, who).Waiting?
  }

  // A thread passes through the mutex.
  function Passed(sys: System, who: Who): System
    requires Present(sys, who)
  {
    var t := ThreadOf(sys, who);
    var a := Accounted(sys.shared, EntryOf(t));
    if a.nTotal + a.nIdle < 0 then sys
    else
      var o := Pass(sys.nBatchSize, sys.shared, EntryOf(t), who.Master?);
      var moved := WithThread(sys, who, ThreadAfter(o.exit)).(
        shared := o.shared,
        done := sys.done + if t.Working? then multiset(t.batch) else multiset{});
      var told := if o.notifyMaster then moved.(master := Notified(moved.master)) else moved;
      if o.exit.Return? then told.(added := multiset{}, done := multiset{}, result := o.exit.result) else told
  }

  function Apply(passes: Check -> bool, sys: System, step: Step): System
    requires Enabled(sys, step)
  {
    match step
    case Add(checks, woken) =>
      sys.(shared := Added(sys.shared, checks),
           workers := NotifiedWorkers(sys.workers, woken),
           added := sys.added + multiset(checks))
    case Execute(who) => WithThread(sys, who, Executed(passes, ThreadOf(sys, who)))
    case Enter(who) => Passed(sys, who)
    case Finish(who) => Passed(sys, who)
    case Wake(who) => Passed(sys, who)
  }

  function Initial(nBatchSize: nat, n: nat): System {
    System(nBatchSize, Shared([], 0, 0, true, 0), Outside, seq(n, i => Outside), multiset{}, multiset{}, true)
  }

  // ------------------------------------------------------------------- invariant

  ghost function Held(t: Thread): multiset<Check> {
    if t.Working? then multiset(t.batch) else multiset{}
  }

  ghost function HeldBy(workers: seq<Thread>): multiset<Check> {
    if workers == [] then multiset{} else Held(workers[0]) + HeldBy(workers[1..])
  }

  function Waits(t: Thread): nat { if t.Waiting? then 1 else 0 }
  function Inside(t: Thread): nat { if t.Outside? then 0 else 1 }

  function WaitCount(workers: seq<Thread>): nat {
    if workers == [] then 0 else Waits(workers[0]) + WaitCount(workers[1..])
  }

  function InsideCount(workers: seq<Thread>): nat {
    if workers == [] then 0 else Inside(workers[0]) + InsideCount(workers[1..])
  }

  ghost predicate AllPass(passes: Check -> bool, checks: multiset<Check>) {
    forall c | c in checks :: passes(c)
  }

  // A verdict on some of the checks of the round: true only if they all passed, false only if
  // some check of the round fails.
  ghost predicate Verdict(passes: Check -> bool, ok: bool, seen: multiset<Check>, added: multiset<Check>) {
    if ok then AllPass(passes, seen) else !AllPass(passes, added)
  }

  ghost predicate ThreadOk(passes: Check -> bool, t: Thread, added: multiset<Check>) {
    t.Working? ==>
      && 0 < |t.batch| && t.next <= |t.batch|
      && Verdict(passes, t.fOk, multiset(t.batch[..t.next]), added)
  }

  ghost function TotalHeld(sys: System): multiset<Check> {
    Held(sys.master) + HeldBy(sys.workers)
  }

  // nTodo counts the checks in the queue and in outstanding batches.
  ghost predicate Todo(sys: System) {
    && sys.added == multiset(sys.shared.queue) + TotalHeld(sys) + sys.done
    && sys.shared.nTodo == |sys.shared.queue| + |TotalHeld(sys)|
  }

  function TotalWaits(sys: System): nat {
    Waits(sys.master) + WaitCount(sys.workers)
  }

  function TotalInside(sys: System): nat {
    Inside(sys.master) + InsideCount(sys.workers)
  }

  // nIdle counts the threads in wait(), nTotal those in Loop.
  ghost predicate Counts(sys: System) {
    sys.shared.nIdle == TotalWaits(sys) && sys.shared.nTotal == TotalInside(sys)
  }

  ghost predicate Verdicts(passes: Check -> bool, sys: System) {
    && Verdict(passes, sys.shared.fAllOk, sys.done, sys.added)
    && ThreadOk(passes, sys.master, sys.added)
    && forall i | 0 <= i < |sys.workers| :: ThreadOk(passes, sys.workers[i], sys.added)
  }

  // No lost wakeup: a master that waits without having been notified has work outstanding.
  ghost predicate MasterWaits(sys: System) {
    && (sys.master.Waiting? ==> sys.shared.queue == [])
    && (sys.master.Waiting? && !sys.master.notified ==> sys.shared.nTodo > 0)
  }

  ghost predicate Inv(passes: Check -> bool, sys: System) {
    Todo(sys) && Counts(sys) && Verdicts(passes, sys) && MasterWaits(sys)
  }

  // --------------------------------------------------------- sums over the workers

  lemma {:induction false} SumsUpdate(workers: seq<Thread>, i: nat, t: Thread)
    requires i < |workers|
    ensures HeldBy(workers[i := t]) + Held(workers[i]) == HeldBy(workers) + Held(t)
    ensures WaitCount(workers[i := t]) + Waits(workers[i]) == WaitCount(workers) + Waits(t)
    ensures InsideCount(workers[i := t]) + Inside(workers[i]) == InsideCount(workers) + Inside(t)
  {
    if i == 0 {
      assert workers[i := t][1..] == workers[1..];
    } else {
      SumsUpdate(workers[1..], i - 1, t);
      assert workers[i := t][1..] == workers[1..][i - 1 := t];
      SumAssociates(Held(workers[0]), HeldBy(workers[1..][i - 1 := t]), Held(workers[i]));
      SumAssociates(Held(workers[0]), HeldBy(workers[1..]), Held(t));
    }
  }

  lemma SumAssociates(a: multiset<Check>, b: multiset<Check>, c: multiset<Check>)
    ensures a + b + c == a + (b + c)
  {
  }

  lemma {:induction false} SumsSame(a: seq<Thread>, b: seq<Thread>)
    requires |a| == |b|
    requires forall i | 0 <= i < |a| :: Held(a[i]) == Held(b[i]) && Waits(a[i]) == Waits(b[i]) && Inside(a[i]) == Inside(b[i])
    ensures HeldBy(a) == HeldBy(b) && WaitCount(a) == WaitCount(b) && InsideCount(a) == InsideCount(b)
  {
    if a != [] {
      SumsSame(a[1..], b[1..]);
    }
  }

  lemma {:induction false} SumsOutside(n: nat)
    ensures
      var workers := seq(n, i => Outside);
      HeldBy(workers) == multiset{} && WaitCount(workers) == 0 && InsideCount(workers) == 0
  {
    if n > 0 {
      SumsOutside(n - 1);
      assert seq<Thread>(n, i => Outside)[1..] == seq<Thread>(n - 1, i => Outside);
    }
  }

  lemma {:induction false} NothingHeld(workers: seq<Thread>)
    requires |HeldBy(workers)| == 0
    ensures forall i | 0 <= i < |workers| :: |Held(workers[i])| == 0
  {
    if workers != [] {
      NothingHeld(workers[1..]);
      forall i | 0 <= i < |workers|
        ensures |Held(workers[i])| == 0
      {
        assert i > 0 ==> workers[i] == workers[1..][i - 1];
      }
    }
  }

  lemma TakenSplits(queue: seq<Check>, n: nat)
    requires n <= |queue|
    ensures multiset(queue) == multiset(queue[..|queue| - n]) + multiset(TakenFrom(queue, n))
  {
    if n == 0 {
      assert queue[..|queue|] == queue;
    } else {
      TakenSplits(queue, n - 1);
      var a, b := queue[..|queue| - n], queue[..|queue| - n + 1];
      assert b == a + [queue[|queue| - n]];
      assert TakenFrom(queue, n) == TakenFrom(queue, n - 1) + [queue[|queue| - n]];
    }
  }

  lemma WithThreadSums(sys: System, who: Who, t: Thread)
    requires Present(sys, who)
    ensures
      var r := WithThread(sys, who, t);
      var u := ThreadOf(sys, who);
      && TotalHeld(r) + Held(u) == TotalHeld(sys) + Held(t)
      && TotalWaits(r) + Waits(u) == TotalWaits(sys) + Waits(t)
      && TotalInside(r) + Inside(u) == TotalInside(sys) + Inside(t)
  {
    if who.Worker? {
      SumsUpdate(sys.workers, who.i, t);
      SumAssociates(Held(sys.master), HeldBy(sys.workers[who.i := t]), Held(sys.workers[who.i]));
      SumAssociates(Held(sys.master), HeldBy(sys.workers), Held(t));
    }
  }

  // ----------------------------------------------------- the passage is accounted

  // The two sums a passage through the mutex starts from: the thread in it holds nothing.
  ghost predicate Balanced(added: multiset<Check>, queue: seq<Check>, others: multiset<Check>, done: multiset<Check>,
                           nTodo: int) {
    added == multiset(queue) + others + done && nTodo == |queue| + |others|
  }

  // What the other threads hold.
  ghost function Others(sys: System, who: Who): multiset<Check>
    requires Present(sys, who)
  {
    TotalHeld(WithThread(sys, who, Outside))
  }

  lemma AccountedBalance(sys: System, who: Who)
    requires Present(sys, who) && Todo(sys)
    ensures
      var t := ThreadOf(sys, who);
      var a := Accounted(sys.shared, EntryOf(t));
      Balanced(sys.added, a.queue, Others(sys, who), sys.done + Held(t), a.nTodo)
  {
    var t := ThreadOf(sys, who);
    WithThreadSums(sys, who, Outside);
    hide TotalHeld, WithThread;
    var others := Others(sys, who);
    assert others + Held(t) == TotalHeld(sys) + multiset{};
    assert TotalHeld(sys) == others + Held(t);
    MoveToDone(multiset(sys.shared.queue), others, Held(t), sys.done);
  }

  lemma MoveToDone(queue: multiset<Check>, others: multiset<Check>, held: multiset<Check>, done: multiset<Check>)
    ensures queue + (others + held) + done == queue + others + (done + held)
  {
  }

  // The ways out of the mutex.
  lemma PassCases(nBatchSize: nat, s: Shared, entry: Entry, fMaster: bool)
    requires Accounted(s, entry).nTotal + Accounted(s, entry).nIdle >= 0
    ensures
      var a := Accounted(s, entry);
      var o := Pass(nBatchSize, s, entry, fMaster);
      && (o.exit.Return? ==>
            && fMaster && a.queue == [] && a.nTodo == 0 && o.exit.result == a.fAllOk
            && o.shared == a.(nTotal := a.nTotal - 1, fAllOk := true))
      && (o.exit.Sleep? ==>
            a.queue == [] && (fMaster ==> a.nTodo != 0) && o.shared == a.(nIdle := a.nIdle + 1))
      && (o.exit.Work? ==>
            && 0 < |o.exit.batch| <= |a.queue| && o.exit.fOk == a.fAllOk
            && o.exit.batch == TakenFrom(a.queue, |o.exit.batch|)
            && o.shared == a.(queue := a.queue[..|a.queue| - |o.exit.batch|]))
      && (o.notifyMaster <==> entry.Finished? && a.nTodo == 0 && !fMaster)
  {
  }

  // The passage as the moves it consists of.
  lemma PassedIs(sys: System, who: Who)
    requires Present(sys, who)
    requires
      var a := Accounted(sys.shared, EntryOf(ThreadOf(sys, who)));
      a.nTotal + a.nIdle >= 0
    ensures
      var r := Passed(sys, who);
      var t := ThreadOf(sys, who);
      var o := Pass(sys.nBatchSize, sys.shared, EntryOf(t), who.Master?);
      var moved := WithThread(sys, who, ThreadAfter(o.exit));
      && r.shared == o.shared
      && r.workers == moved.workers
      && r.master == (if o.notifyMaster then Notified(moved.master) else moved.master)
      && (if o.exit.Return? then r.added == multiset{} && r.done == multiset{}
          else r.added == sys.added && r.done == sys.done + Held(t))
  {
    hide Pass, Accounted, ThreadAfter;
  }

  // Sums depend on the threads only.
  lemma SumsOfThreads(sys: System, r: System)
    requires r.workers == sys.workers && (r.master == sys.master || r.master == Notified(sys.master))
    ensures TotalHeld(r) == TotalHeld(sys) && TotalWaits(r) == TotalWaits(sys) && TotalInside(r) == TotalInside(sys)
  {
    hide HeldBy, WaitCount, InsideCount;
  }

  // What a passage does to the sums.
  lemma PassedSums(sys: System, who: Who)
    requires Present(sys, who)
    requires
      var a := Accounted(sys.shared, EntryOf(ThreadOf(sys, who)));
      a.nTotal + a.nIdle >= 0
    ensures
      var r := Passed(sys, who);
      var t := ThreadOf(sys, who);
      var after := ThreadAfter(Pass(sys.nBatchSize, sys.shared, EntryOf(t), who.Master?).exit);
      && TotalHeld(r) == Others(sys, who) + Held(after)
      && TotalWaits(r) + Waits(t) == TotalWaits(sys) + Waits(after)
      && TotalInside(r) + Inside(t) == TotalInside(sys) + Inside(after)
  {
    hide Pass, Passed, Accounted, ThreadAfter, TotalHeld, TotalWaits, TotalInside;
    var t := ThreadOf(sys, who);
    var o := Pass(sys.nBatchSize, sys.shared, EntryOf(t), who.Master?);
    var after := ThreadAfter(o.exit);
    PassedIs(sys, who);
    WithThreadSums(sys, who, after);
    WithThreadSums(WithThread(sys, who, Outside), who, after);
    WithThreadTwice(sys, who, Outside, after);
    SumsOfThreads(WithThread(sys, who, after), Passed(sys, who));
  }

  // The balance after a passage.
  lemma PassBalance(sys: System, who: Who)
    requires Present(sys, who) && Todo(sys)
    requires
      var a := Accounted(sys.shared, EntryOf(ThreadOf(sys, who)));
      a.nTotal + a.nIdle >= 0
    ensures
      var t := ThreadOf(sys, who);
      var o := Pass(sys.nBatchSize, sys.shared, EntryOf(t), who.Master?);
      var held := Others(sys, who) + Held(ThreadAfter(o.exit));
      && o.shared.nTodo == |o.shared.queue| + |held|
      && (if o.exit.Return? then held == multiset{} && o.shared.queue == []
          else sys.added == multiset(o.shared.queue) + held + (sys.done + Held(t)))
  {
    hide Pass, Others, TotalHeld, Accounted, Todo, Held, TakenFrom;
    var t := ThreadOf(sys, who);
    AccountedBalance(sys, who);
    PassCases(sys.nBatchSize, sys.shared, EntryOf(t), who.Master?);
    var o := Pass(sys.nBatchSize, sys.shared, EntryOf(t), who.Master?);
    BalanceKept(sys.added, Accounted(sys.shared, EntryOf(t)), Others(sys, who), sys.done + Held(t), o);
  }

  lemma PassTodo(sys: System, who: Who)
    requires Present(sys, who) && Todo(sys)
    requires
      var a := Accounted(sys.shared, EntryOf(ThreadOf(sys, who)));
      a.nTotal + a.nIdle >= 0
    ensures Todo(Passed(sys, who))
  {
    hide Pass, Passed, Others, TotalHeld, Accounted, ThreadAfter, Held;
    PassBalance(sys, who);
    PassedIs(sys, who);
    PassedSums(sys, who);
  }

  // Sleeping and returning leave the balance alone; taking a batch moves it out of the queue.
  lemma BalanceKept(added: multiset<Check>, a: Shared, others: multiset<Check>, done: multiset<Check>, o: Outcome)
    requires Balanced(added, a.queue, others, done, a.nTodo)
    requires o.shared.nTodo == a.nTodo
    requires o.exit.Return? ==> a.nTodo == 0 && a.queue == o.shared.queue == []
    requires o.exit.Sleep? ==> o.shared.queue == a.queue
    requires o.exit.Work? ==>
      && |o.exit.batch| <= |a.queue| && o.exit.batch == TakenFrom(a.queue, |o.exit.batch|)
      && o.shared.queue == a.queue[..|a.queue| - |o.exit.batch|]
    ensures o.shared.nTodo == |o.shared.queue| + |others + Held(ThreadAfter(o.exit))|
    ensures o.exit.Return? ==> others + Held(ThreadAfter(o.exit)) == multiset{}
    ensures !o.exit.Return? ==> added == multiset(o.shared.queue) + (others + Held(ThreadAfter(o.exit))) + done
  {
    if o.exit.Work? {
      TakenSplits(a.queue, |o.exit.batch|);
      Rebalance(added, a.queue, others, done, o.shared.queue, o.exit.batch);
    }
  }

  lemma WithThreadTwice(sys: System, who: Who, t: Thread, u: Thread)
    requires Present(sys, who)
    ensures WithThread(WithThread(sys, who, t), who, u) == WithThread(sys, who, u)
  {
  }

  lemma Rebalance(added: multiset<Check>, queue: seq<Check>, others: multiset<Check>, done: multiset<Check>,
                  rest: seq<Check>, batch: seq<Check>)
    requires added == multiset(queue) + others + done
    requires multiset(queue) == multiset(rest) + multiset(batch)
    ensures added == multiset(rest) + (others + multiset(batch)) + done
    ensures |queue| == |rest| + |multiset(batch)|
  {
    assert |multiset(queue)| == |queue|;
  }

  lemma SumsAbove(sys: System, who: Who)
    requires Present(sys, who)
    ensures TotalWaits(sys) >= Waits(ThreadOf(sys, who)) && TotalInside(sys) >= Inside(ThreadOf(sys, who))
  {
    WithThreadSums(sys, who, Outside);
  }

  // The divisor of the batch size is positive.
  lemma CountsEnter(sys: System, who: Who)
    requires Present(sys, who) && Counts(sys)
    ensures
      var a := Accounted(sys.shared, EntryOf(ThreadOf(sys, who)));
      a.nTotal + a.nIdle >= 0
  {
    SumsAbove(sys, who);
  }

  lemma PassCounts(sys: System, who: Who)
    requires Present(sys, who) && Counts(sys)
    ensures
      var a := Accounted(sys.shared, EntryOf(ThreadOf(sys, who)));
      a.nTotal + a.nIdle >= 0 && Counts(Passed(sys, who))
  {
    hide Pass, Passed, TotalHeld, TotalWaits, TotalInside;
    var t := ThreadOf(sys, who);
    CountsEnter(sys, who);
    PassCases(sys.nBatchSize, sys.shared, EntryOf(t), who.Master?);
    PassedIs(sys, who);
    PassedSums(sys, who);
  }

  // --------------------------------------------------------------------- verdicts

  lemma AllPassSum(passes: Check -> bool, a: multiset<Check>, b: multiset<Check>)
    ensures AllPass(passes, a + b) <==> AllPass(passes, a) && AllPass(passes, b)
  {
    if AllPass(passes, a + b) {
      forall c | c in a
        ensures passes(c)
      {
        assert c in a + b;
      }
      forall c | c in b
        ensures passes(c)
      {
        assert c in a + b;
      }
    }
  }

  // The verdict of the queue after a finished batch is accounted for.
  lemma AccountedVerdict(passes: Check -> bool, sys: System, who: Who)
    requires Present(sys, who) && Verdicts(passes, sys)
    requires ThreadOf(sys, who).Working? ==> ThreadOf(sys, who).next == |ThreadOf(sys, who).batch|
    ensures
      var t := ThreadOf(sys, who);
      Verdict(passes, Accounted(sys.shared, EntryOf(t)).fAllOk, sys.done + Held(t), sys.added)
  {
    var t := ThreadOf(sys, who);
    assert ThreadOk(passes, t, sys.added);
    AllPassSum(passes, sys.done, Held(t));
    if t.Working? {
      assert t.batch[..t.next] == t.batch;
    }
  }

  // When Wait returns, its result is the conjunction of all checks added in the round.
  lemma WaitReturnsConjunction(passes: Check -> bool, sys: System)
    requires Inv(passes, sys)
    requires sys.master.Working? ==> sys.master.next == |sys.master.batch|
    requires
      var a := Accounted(sys.shared, EntryOf(sys.master));
      a.nTotal + a.nIdle >= 0 && Pass(sys.nBatchSize, sys.shared, EntryOf(sys.master), true).exit.Return?
    ensures Passed(sys, Master).result <==> AllPass(passes, sys.added)
  {
    AccountedBalance(sys, Master);
    AccountedVerdict(passes, sys, Master);
    assert |Others(sys, Master)| == 0;
    assert sys.added == sys.done + Held(sys.master);
  }

  // Where the threads are after a passage.
  lemma PassedThreads(sys: System, who: Who)
    requires Present(sys, who)
    requires
      var a := Accounted(sys.shared, EntryOf(ThreadOf(sys, who)));
      a.nTotal + a.nIdle >= 0
    ensures
      var r := Passed(sys, who);
      var o := Pass(sys.nBatchSize, sys.shared, EntryOf(ThreadOf(sys, who)), who.Master?);
      && |r.workers| == |sys.workers|
      && (forall i | 0 <= i < |sys.workers| :: r.workers[i] == if who == Worker(i) then ThreadAfter(o.exit) else sys.workers[i])
      && var m := if who.Master? then ThreadAfter(o.exit) else sys.master;
         r.master == if o.notifyMaster then Notified(m) else m
  {
    hide Pass, Accounted, ThreadAfter;
  }

  lemma PassVerdicts(passes: Check -> bool, sys: System, who: Who)
    requires Present(sys, who) && Inv(passes, sys)
    requires ThreadOf(sys, who).Working? ==> ThreadOf(sys, who).next == |ThreadOf(sys, who).batch|
    ensures Verdicts(passes, Passed(sys, who))
  {
    PassCounts(sys, who);
    hide Pass, Passed, Verdict, Others, TotalHeld, AllPass, Accounted;
    var o := Pass(sys.nBatchSize, sys.shared, EntryOf(ThreadOf(sys, who)), who.Master?);
    if o.exit.Return? {
      ReturnVerdicts(passes, sys, who);
    } else {
      RoundVerdicts(passes, sys, who);
    }
  }

  // Within a round the verdict of the queue grows by the finished batch.
  lemma RoundVerdicts(passes: Check -> bool, sys: System, who: Who)
    requires Present(sys, who) && Verdicts(passes, sys)
    requires ThreadOf(sys, who).Working? ==> ThreadOf(sys, who).next == |ThreadOf(sys, who).batch|
    requires
      var a := Accounted(sys.shared, EntryOf(ThreadOf(sys, who)));
      && a.nTotal + a.nIdle >= 0
      && !Pass(sys.nBatchSize, sys.shared, EntryOf(ThreadOf(sys, who)), who.Master?).exit.Return?
    ensures Verdicts(passes, Passed(sys, who))
  {
    hide Pass, Passed, Verdict, Others, TotalHeld, AllPass, Accounted;
    var t := ThreadOf(sys, who);
    AccountedVerdict(passes, sys, who);
    PassedIs(sys, who);
    PassedThreads(sys, who);
    PassCases(sys.nBatchSize, sys.shared, EntryOf(t), who.Master?);
    NewBatchOk(passes, sys, who, Pass(sys.nBatchSize, sys.shared, EntryOf(t), who.Master?));
  }

  // With nothing outstanding nobody is working, and the new round starts with a clean verdict.
  lemma ReturnVerdicts(passes: Check -> bool, sys: System, who: Who)
    requires Present(sys, who) && Todo(sys) && Verdicts(passes, sys)
    requires
      var a := Accounted(sys.shared, EntryOf(ThreadOf(sys, who)));
      && a.nTotal + a.nIdle >= 0
      && Pass(sys.nBatchSize, sys.shared, EntryOf(ThreadOf(sys, who)), who.Master?).exit.Return?
    ensures Verdicts(passes, Passed(sys, who))
    ensures who.Master? && forall i | 0 <= i < |sys.workers| :: !sys.workers[i].Working?
  {
    PassCases(sys.nBatchSize, sys.shared, EntryOf(ThreadOf(sys, who)), who.Master?);
    AccountedBalance(sys, who);
    assert |HeldBy(sys.workers)| == 0;
    NobodyWorks(passes, sys);
    hide Pass, Passed, Others, TotalHeld, Accounted, HeldBy;
    PassedIs(sys, who);
    PassedThreads(sys, who);
  }

  lemma NobodyWorks(passes: Check -> bool, sys: System)
    requires |HeldBy(sys.workers)| == 0 && Verdicts(passes, sys)
    ensures forall i | 0 <= i < |sys.workers| :: !sys.workers[i].Working?
  {
    NothingHeld(sys.workers);
    forall i | 0 <= i < |sys.workers|
      ensures !sys.workers[i].Working?
    {
      assert ThreadOk(passes, sys.workers[i], sys.added);
    }
  }

  // A batch starts with the verdict so far.
  lemma NewBatchOk(passes: Check -> bool, sys: System, who: Who, o: Outcome)
    requires Present(sys, who)
    requires
      var a := Accounted(sys.shared, EntryOf(ThreadOf(sys, who)));
      && a.nTotal + a.nIdle >= 0
      && o == Pass(sys.nBatchSize, sys.shared, EntryOf(ThreadOf(sys, who)), who.Master?)
      && Verdict(passes, a.fAllOk, sys.done + Held(ThreadOf(sys, who)), sys.added)
    ensures ThreadOk(passes, ThreadAfter(o.exit), sys.added)
  {
    if o.exit.Work? {
      assert o.exit.batch[..0] == [];
    }
  }

  // ---------------------------------------------------------------- steps keep Inv

  // The master is told when the last outstanding check is accounted for.
  lemma PassMasterWaits(sys: System, who: Who)
    requires Present(sys, who) && MasterWaits(sys) && Todo(Passed(sys, who))
    requires
      var a := Accounted(sys.shared, EntryOf(ThreadOf(sys, who)));
      a.nTotal + a.nIdle >= 0
    ensures MasterWaits(Passed(sys, who))
  {
    hide Pass, Passed, TotalHeld;
    PassCases(sys.nBatchSize, sys.shared, EntryOf(ThreadOf(sys, who)), who.Master?);
    PassedIs(sys, who);
    PassedThreads(sys, who);
  }

  lemma PassKeeps(passes: Check -> bool, sys: System, who: Who)
    requires Present(sys, who) && Inv(passes, sys)
    requires ThreadOf(sys, who).Working? ==> ThreadOf(sys, who).next == |ThreadOf(sys, who).batch|
    ensures Inv(passes, Passed(sys, who))
  {
    PassCounts(sys, who);
    PassVerdicts(passes, sys, who);
    hide Counts, Todo, Verdicts, MasterWaits, Passed, Accounted;
    PassTodo(sys, who);
    PassMasterWaits(sys, who);
  }

  lemma AllPassMore(passes: Check -> bool, t: Thread, added: multiset<Check>, more: multiset<Check>)
    requires ThreadOk(passes, t, added)
    ensures ThreadOk(passes, Notified(t), added + more) && ThreadOk(passes, t, added + more)
  {
    AllPassSum(passes, added, more);
  }

  lemma AddVerdicts(passes: Check -> bool, sys: System, checks: seq<Check>, woken: set<nat>)
    requires Enabled(sys, Add(checks, woken)) && Verdicts(passes, sys)
    ensures Verdicts(passes, Apply(passes, sys, Add(checks, woken)))
  {
    hide Verdict, ThreadOk, Notified, NotifiedWorkers;
    var r := Apply(passes, sys, Add(checks, woken));
    AllPassMore(passes, sys.master, sys.added, multiset(checks));
    forall i | 0 <= i < |r.workers|
      ensures ThreadOk(passes, r.workers[i], r.added)
    {
      AllPassMore(passes, sys.workers[i], sys.added, multiset(checks));
    }
    assert Verdict(passes, r.shared.fAllOk, r.done, r.added) by {
      VerdictMore(passes, sys.shared.fAllOk, sys.done, sys.added, multiset(checks));
    }
  }

  lemma VerdictMore(passes: Check -> bool, ok: bool, seen: multiset<Check>, added: multiset<Check>, more: multiset<Check>)
    requires Verdict(passes, ok, seen, added)
    ensures Verdict(passes, ok, seen, added + more)
  {
    AllPassSum(passes, added, more);
  }

  lemma AddSums(passes: Check -> bool, sys: System, checks: seq<Check>, woken: set<nat>)
    requires Enabled(sys, Add(checks, woken))
    ensures
      var r := Apply(passes, sys, Add(checks, woken));
      TotalHeld(r) == TotalHeld(sys) && TotalWaits(r) == TotalWaits(sys) && TotalInside(r) == TotalInside(sys)
  {
    SumsSame(sys.workers, NotifiedWorkers(sys.workers, woken));
  }

  lemma AddKeeps(passes: Check -> bool, sys: System, checks: seq<Check>, woken: set<nat>)
    requires Enabled(sys, Add(checks, woken)) && Inv(passes, sys)
    ensures Inv(passes, Apply(passes, sys, Add(checks, woken)))
  {
    AddVerdicts(passes, sys, checks, woken);
    hide Verdicts, TotalHeld, TotalWaits, TotalInside, NotifiedWorkers;
    AddSums(passes, sys, checks, woken);
    AddToQueue(sys.shared.queue, checks, TotalHeld(sys), sys.done);
  }

  lemma AddToQueue(queue: seq<Check>, checks: seq<Check>, held: multiset<Check>, done: multiset<Check>)
    ensures multiset(queue) + held + done + multiset(checks) == multiset(queue + checks) + held + done
  {
    assert multiset(queue + checks) == multiset(queue) + multiset(checks);
  }

  // One more check of the batch: the verdict covers it.
  lemma ExecutedOk(passes: Check -> bool, t: Thread, added: multiset<Check>)
    requires ThreadOk(passes, t, added) && t.Working? && t.next < |t.batch|
    requires Held(t) <= added
    ensures ThreadOk(passes, Executed(passes, t), added)
  {
    var c := t.batch[t.next];
    assert t.batch[..t.next + 1] == t.batch[..t.next] + [c];
    AllPassSum(passes, multiset(t.batch[..t.next]), multiset{c});
    assert multiset(t.batch[..t.next + 1]) == multiset(t.batch[..t.next]) + multiset{c};
    assert c in t.batch;
    assert c in added;
  }

  lemma HeldIsAdded(sys: System, who: Who)
    requires Present(sys, who) && Todo(sys)
    ensures Held(ThreadOf(sys, who)) <= sys.added
  {
    AccountedBalance(sys, who);
  }

  lemma ExecuteVerdicts(passes: Check -> bool, sys: System, who: Who)
    requires Enabled(sys, Execute(who)) && Todo(sys) && Verdicts(passes, sys)
    ensures Verdicts(passes, Apply(passes, sys, Execute(who)))
  {
    var t := ThreadOf(sys, who);
    HeldIsAdded(sys, who);
    assert ThreadOk(passes, t, sys.added);
    ExecutedOk(passes, t, sys.added);
    hide ThreadOk, Verdict, Todo, Held;
  }

  lemma ExecuteKeeps(passes: Check -> bool, sys: System, who: Who)
    requires Enabled(sys, Execute(who)) && Inv(passes, sys)
    ensures Inv(passes, Apply(passes, sys, Execute(who)))
  {
    hide Verdicts, TotalHeld, TotalWaits, TotalInside;
    ExecuteVerdicts(passes, sys, who);
    ExecuteSums(passes, sys, who);
  }

  lemma ExecuteSums(passes: Check -> bool, sys: System, who: Who)
    requires Enabled(sys, Execute(who))
    ensures
      var r := Apply(passes, sys, Execute(who));
      TotalHeld(r) == TotalHeld(sys) && TotalWaits(r) == TotalWaits(sys) && TotalInside(r) == TotalInside(sys)
  {
    hide TotalHeld, TotalWaits, TotalInside;
    var t := ThreadOf(sys, who);
    var u := Executed(passes, t);
    WithThreadSums(sys, who, u);
    SameHeld(TotalHeld(WithThread(sys, who, u)), TotalHeld(sys), Held(t));
  }

  lemma SameHeld(a: multiset<Check>, b: multiset<Check>, c: multiset<Check>)
    requires a + c == b + c
    ensures a == b
  {
    forall x
      ensures a[x] == b[x]
    {
      assert (a + c)[x] == (b + c)[x];
    }
  }

  lemma StepKeeps(passes: Check -> bool, sys: System, step: Step)
    requires Enabled(sys, step) && Inv(passes, sys)
    ensures Inv(passes, Apply(passes, sys, step))
  {
    hide Inv, Passed, WithThread, Executed;
    match step
    case Add(checks, woken) => AddKeeps(passes, sys, checks, woken);
    case Execute(who) => ExecuteKeeps(passes, sys, who);
    case Enter(who) => PassKeeps(passes, sys, who);
    case Finish(who) => PassKeeps(passes, sys, who);
    case Wake(who) => PassKeeps(passes, sys, who);
  }

  lemma InitialInv(passes: Check -> bool, nBatchSize: nat, n: nat)
    ensures Inv(passes, Initial(nBatchSize, n))
  {
    SumsOutside(n);
  }

  // ------------------------------------------------------------------------- runs

  // Any interleaving of enabled steps.
  ghost predicate Schedule(passes: Check -> bool, sys: System, steps: seq<Step>)
    decreases steps
  {
    steps == [] || (Enabled(sys, steps[0]) && Schedule(passes, Apply(passes, sys, steps[0]), steps[1..]))
  }

  ghost function Run(passes: Check -> bool, sys: System, steps: seq<Step>): System
    requires Schedule(passes, sys, steps)
    decreases steps
  {
    if steps == [] then sys else Run(passes, Apply(passes, sys, steps[0]), steps[1..])
  }

  lemma {:induction false} RunKeeps(passes: Check -> bool, sys: System, steps: seq<Step>)
    requires Schedule(passes, sys, steps) && Inv(passes, sys)
    ensures Inv(passes, Run(passes, sys, steps))
    decreases steps
  {
    if steps != [] {
      hide Inv, Enabled, Apply;
      StepKeeps(passes, sys, steps[0]);
      RunKeeps(passes, Apply(passes, sys, steps[0]), steps[1..]);
    }
  }

  // The step by which Wait returns.
  ghost predicate Returns(passes: Check -> bool, sys: System, step: Step)
    requires Enabled(sys, step)
  {
    && step in {Enter(Master), Finish(Master), Wake(Master)}
    && Apply(passes, sys, step).master.Outside?
  }

  lemma ReturnsFrom(passes: Check -> bool, sys: System, step: Step)
    requires Enabled(sys, step) && Inv(passes, sys) && Returns(passes, sys, step)
    ensures
      var a := Accounted(sys.shared, EntryOf(sys.master));
      && a.nTotal + a.nIdle >= 0 && Pass(sys.nBatchSize, sys.shared, EntryOf(sys.master), true).exit.Return?
      && Apply(passes, sys, step) == Passed(sys, Master)
  {
    CountsEnter(sys, Master);
    hide Pass, Accounted, Passed, Inv;
    PassedOutside(sys);
  }

  lemma PassedOutside(sys: System)
    requires
      var a := Accounted(sys.shared, EntryOf(sys.master));
      a.nTotal + a.nIdle >= 0
    requires Passed(sys, Master).master.Outside?
    ensures Pass(sys.nBatchSize, sys.shared, EntryOf(sys.master), true).exit.Return?
  {
    hide Pass, Accounted, Passed;
    PassedIs(sys, Master);
  }

  // Whatever the interleaving, Wait returns the conjunction of the checks added since the
  // last one returned, and leaves a queue the next controller finds idle.
  lemma WaitReturns(passes: Check -> bool, nBatchSize: nat, n: nat, steps: seq<Step>, step: Step)
    requires Schedule(passes, Initial(nBatchSize, n), steps)
    requires
      var sys := Run(passes, Initial(nBatchSize, n), steps);
      Enabled(sys, step) && Returns(passes, sys, step)
    ensures
      var sys := Run(passes, Initial(nBatchSize, n), steps);
      var r := Apply(passes, sys, step);
      (r.result <==> AllPass(passes, sys.added)) && Idle(r.shared)
  {
    InitialInv(passes, nBatchSize, n);
    RunKeeps(passes, Initial(nBatchSize, n), steps);
    var sys := Run(passes, Initial(nBatchSize, n), steps);
    hide Run, Schedule, Initial, Enabled;
    ReturnsFrom(passes, sys, step);
    WaitReturnsConjunction(passes, sys);
    StepKeeps(passes, sys, step);
    hide Pass, Accounted, Passed, Apply;
    PassedIs(sys, Master);
    IdleBetweenRounds(passes, Apply(passes, sys, step));
  }

  // With the master outside and nothing added, the queue is idle.
  lemma IdleBetweenRounds(passes: Check -> bool, sys: System)
    requires Inv(passes, sys) && sys.master.Outside? && sys.added == multiset{}
    ensures Idle(sys.shared)
  {
    assert |sys.added| == 0;
    assert |HeldBy(sys.workers)| == 0;
    NobodyWorks(passes, sys);
    InsideWaits(sys.workers);
  }

  lemma {:induction false} InsideWaits(workers: seq<Thread>)
    requires forall i | 0 <= i < |workers| :: !workers[i].Working?
    ensures InsideCount(workers) == WaitCount(workers)
  {
    if workers != [] {
      InsideWaits(workers[1..]);
    }
  }

  // --------------------------------------------------------------------- progress

  // A wake-up nobody asked for.
  predicate Spurious(sys: System, step: Step)
    requires Enabled(sys, step)
  {
    step.Wake? && !ThreadOf(sys, step.who).notified
  }

  // While the master is in Wait, some thread can move without a spurious wake-up.
  lemma NoDeadlock(passes: Check -> bool, sys: System) returns (step: Step)
    requires Inv(passes, sys) && !sys.master.Outside?
    ensures Enabled(sys, step) && !Spurious(sys, step)
  {
    if sys.master.Working? {
      step := if sys.master.next < |sys.master.batch| then Execute(Master) else Finish(Master);
    } else if sys.master.notified {
      step := Wake(Master);
    } else {
      assert |HeldBy(sys.workers)| > 0;
      var i := SomeoneWorks(sys.workers);
      assert ThreadOk(passes, sys.workers[i], sys.added);
      step := if sys.workers[i].next < |sys.workers[i].batch| then Execute(Worker(i)) else Finish(Worker(i));
    }
  }

  lemma {:induction false} SomeoneWorks(workers: seq<Thread>) returns (i: nat)
    requires |HeldBy(workers)| > 0
    ensures i < |workers| && workers[i].Working?
  {
    if workers[0].Working? {
      i := 0;
    } else {
      var j := SomeoneWorks(workers[1..]);
      i := j + 1;
    }
  }

  function Cost(t: Thread): int {
    match t
    case Outside => 1
    case Working(batch, next, _) => |batch| - next + 2
    case Waiting(notified) => if notified then 1 else 0
  }

  function CostOf(workers: seq<Thread>): int {
    if workers == [] then 0 else Cost(workers[0]) + CostOf(workers[1..])
  }

  // Steps left in this Wait: every check in the queue is yet to be taken, executed and accounted for.
  function Measure(sys: System): int {
    3 * |sys.shared.queue| + Cost(sys.master) + CostOf(sys.workers)
  }

  lemma {:induction false} CostUpdate(workers: seq<Thread>, i: nat, t: Thread)
    requires i < |workers|
    ensures CostOf(workers[i := t]) + Cost(workers[i]) == CostOf(workers) + Cost(t)
  {
    if i == 0 {
      assert workers[i := t][1..] == workers[1..];
    } else {
      CostUpdate(workers[1..], i - 1, t);
      assert workers[i := t][1..] == workers[1..][i - 1 := t];
    }
  }

  lemma {:induction false} CostNonNegative(passes: Check -> bool, workers: seq<Thread>, added: multiset<Check>)
    requires forall i | 0 <= i < |workers| :: ThreadOk(passes, workers[i], added)
    ensures CostOf(workers) >= 0
  {
    if workers != [] {
      assert ThreadOk(passes, workers[0], added);
      CostNonNegative(passes, workers[1..], added);
    }
  }

  lemma MeasureNonNegative(passes: Check -> bool, sys: System)
    requires Inv(passes, sys)
    ensures Measure(sys) >= 0
  {
    assert ThreadOk(passes, sys.master, sys.added);
    CostNonNegative(passes, sys.workers, sys.added);
  }

  // What a change of one thread does to the measure.
  lemma MeasureUpdate(sys: System, who: Who, t: Thread)
    requires Present(sys, who)
    ensures
      var r := WithThread(sys, who, t);
      Cost(r.master) + CostOf(r.workers) + Cost(ThreadOf(sys, who)) == Cost(sys.master) + CostOf(sys.workers) + Cost(t)
  {
    if who.Worker? {
      CostUpdate(sys.workers, who.i, t);
    }
  }

  lemma PassMeasure(sys: System, who: Who)
    requires Present(sys, who)
    requires
      var a := Accounted(sys.shared, EntryOf(ThreadOf(sys, who)));
      a.nTotal + a.nIdle >= 0
    requires ThreadOf(sys, who).Working? ==> ThreadOf(sys, who).next == |ThreadOf(sys, who).batch|
    requires !Passed(sys, who).master.Outside?
    ensures
      var t := ThreadOf(sys, who);
      && Measure(Passed(sys, who)) <= Measure(sys)
      && (t != Waiting(false) ==> Measure(Passed(sys, who)) < Measure(sys))
  {
    hide Pass, Passed, CostOf;
    var t := ThreadOf(sys, who);
    var o := Pass(sys.nBatchSize, sys.shared, EntryOf(t), who.Master?);
    PassCases(sys.nBatchSize, sys.shared, EntryOf(t), who.Master?);
    PassedIs(sys, who);
    MeasureUpdate(sys, who, ThreadAfter(o.exit));
  }

  lemma MeasureFalls(passes: Check -> bool, sys: System, step: Step)
    requires Inv(passes, sys) && Enabled(sys, step)
    requires !sys.master.Outside? && !Apply(passes, sys, step).master.Outside?
    ensures Measure(Apply(passes, sys, step)) <= Measure(sys)
    ensures !Spurious(sys, step) ==> Measure(Apply(passes, sys, step)) < Measure(sys)
  {
    match step
    case Execute(who) =>
      MeasureUpdate(sys, who, Executed(passes, ThreadOf(sys, who)));
    case Enter(who) =>
      CountsEnter(sys, who);
      hide Passed, Measure, Accounted;
      PassMeasure(sys, who);
    case Finish(who) =>
      CountsEnter(sys, who);
      hide Passed, Measure, Accounted;
      PassMeasure(sys, who);
    case Wake(who) =>
      CountsEnter(sys, who);
      hide Passed, Measure, Accounted;
      PassMeasure(sys, who);
  }

  // The steps of a run that are not spurious wake-ups.
  ghost function RealSteps(passes: Check -> bool, sys: System, steps: seq<Step>): nat
    requires Schedule(passes, sys, steps)
    decreases steps
  {
    if steps == [] then 0
    else
      (if Spurious(sys, steps[0]) then 0 else 1) + RealSteps(passes, Apply(passes, sys, steps[0]), steps[1..])
  }

  // A run that stays inside one Wait.
  ghost predicate InWait(passes: Check -> bool, sys: System, steps: seq<Step>)
    requires Schedule(passes, sys, steps)
    decreases steps
  {
    !sys.master.Outside? && (steps != [] ==> InWait(passes, Apply(passes, sys, steps[0]), steps[1..]))
  }

  // Wait ends: however the threads are scheduled, it takes a bounded number of real steps.
  lemma {:induction false} WaitTakesBounded(passes: Check -> bool, sys: System, steps: seq<Step>)
    requires Inv(passes, sys) && Schedule(passes, sys, steps) && InWait(passes, sys, steps)
    ensures RealSteps(passes, sys, steps) <= Measure(sys)
    decreases steps
  {
    if steps == [] {
      MeasureNonNegative(passes, sys);
    } else {
      hide Inv, Enabled, Apply, Measure;
      StepKeeps(passes, sys, steps[0]);
      MeasureFalls(passes, sys, steps[0]);
      WaitTakesBounded(passes, Apply(passes, sys, steps[0]), steps[1..]);
    }
  }
}
