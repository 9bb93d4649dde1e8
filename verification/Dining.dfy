/** Dining philosophers on a lock and five conditions (threads/diningph.cc). Kernel code is preempted
    only where interrupts are switched back on, so the plain code between two kernel calls belongs
    to the second of them. */
module DiningPhilosophers {
  import opened Kernels
  import opened KernelSafety
  import opened Monitors

  const N := 5

  datatype Activity = Thinking | Hungry | Eating

  /** What the thread of a philosopher does next: its place in pickup (the test, the return from
      Wait, the Release), in putdown (before each test and before the Release), or outside both. */
  datatype Pc = Away | PickTest | PickWait | PickRelease | Dines | DropTest | DropRight | DropRelease

  datatype Dining = Dining(state: seq<Activity>, pc: seq<Pc>)

  predicate WellFormed(d: Dining) {
    |d.state| == N && |d.pc| == N
  }

  function Left(i: nat): nat { (i + 4) % N }
  function Right(i: nat): nat { (i + 1) % N }

  /** The neighbours of philosopher `i`, at a table where 4 sits beside 0. */
  lemma Neighbours(i: nat)
    requires i < N
    ensures Left(i) == (if i == 0 then 4 else i - 1) && Right(i) == (if i == 4 then 0 else i + 1)
  {
  }

  /** The condition of the method test. */
  predicate CanEat(state: seq<Activity>, i: nat)
    requires |state| == N && i < N
  {
    state[Left(i)] != Eating && state[i] == Hungry && state[Right(i)] != Eating
  }

  /** pickup between Acquire and the next kernel call: Hungry, then the test. */
  function PickState(state: seq<Activity>, i: nat): (r: seq<Activity>)
    requires |state| == N && i < N
    ensures |r| == N
  {
    var hungry := state[i := Hungry];
    if CanEat(hungry, i) then hungry[i := Eating] else hungry
  }

  /** The next event of the thread that plays philosopher `i`, and what it has become by then. */
  function Program(d: Dining, t: Tid, i: nat): (Event, Dining)
    requires WellFormed(d) && i < N
  {
    match d.pc[i]
    case Away => (Grant(t), d.(pc := d.pc[i := PickTest]))
    case PickTest =>
      var state := PickState(d.state, i);
      if state[i] == Eating then (Notify(t, i), Dining(state, d.pc[i := PickRelease]))
      else (Suspend(t, i), Dining(state, d.pc[i := PickWait]))
    case PickWait => (Grant(t), d.(pc := d.pc[i := PickRelease]))
    case PickRelease => (Leave(t), d.(pc := d.pc[i := Dines]))
    case Dines => (Grant(t), d.(pc := d.pc[i := DropTest]))
    case DropTest =>
      var state := d.state[i := Thinking];
      if CanEat(state, Left(i)) then
        (Notify(t, Left(i)), Dining(state[Left(i) := Eating], d.pc[i := DropRight]))
      else TestRight(d.(state := state), t, i)
    case DropRight => TestRight(d, t, i)
    case DropRelease => (Leave(t), d.(pc := d.pc[i := Away]))
  }

  /** putdown from its second test on. */
  function TestRight(d: Dining, t: Tid, i: nat): (Event, Dining)
    requires WellFormed(d) && i < N
  {
    if CanEat(d.state, Right(i)) then
      (Notify(t, Right(i)), Dining(d.state[Right(i) := Eating], d.pc[i := DropRelease]))
    else (Leave(t), d.(pc := d.pc[i := Away]))
  }

  /** An event of the lock moves the philosopher whose thread it is, as its program says. */
  ghost predicate Step(seats: seq<Tid>, d: Dining, e: Event, d': Dining)
    requires |seats| == N && WellFormed(d)
  {
    if e == Elsewhere then d' == d else exists i :: PlayedBy(seats, d, e, d', i)
  }

  ghost predicate PlayedBy(seats: seq<Tid>, d: Dining, e: Event, d': Dining, i: nat)
    requires |seats| == N && WellFormed(d)
  {
    i < N && Program(d, seats[i], i) == (e, d')
  }

  // ---- The invariant ----

  predicate HoldsLock(pc: Pc) {
    pc == PickTest || pc == PickRelease || pc == DropTest || pc == DropRight || pc == DropRelease
  }

  /** What philosopher `i` is doing agrees with its state and with the queue of its condition. */
  ghost predicate Settled(t: Tid, state: Activity, pc: Pc, queue: seq<Tid>, owner: Option<Tid>) {
    && (HoldsLock(pc) <==> owner == Some(t))
    && queue == (if pc == PickWait && state == Hungry then [t] else [])
    && match pc
       case Away => state == Thinking
       case PickTest => state == Thinking
       case PickWait => state != Thinking
       case PickRelease => state == Eating
       case Dines => state == Eating
       case DropTest => state == Eating
       case DropRight => state == Thinking
       case DropRelease => state == Thinking
  }

  /** A hungry philosopher has an eating neighbour, or its left neighbour is about to test it. */
  predicate Excused(d: Dining, i: nat)
    requires WellFormed(d) && i < N
  {
    d.state[i] == Hungry ==> d.state[Left(i)] == Eating || d.state[Right(i)] == Eating || d.pc[Left(i)] == DropRight
  }

  /** Nobody eats beside an eating neighbour, and everybody hungry is excused. */
  ghost predicate Fair(d: Dining)
    requires WellFormed(d)
  {
    && (forall n :: 0 <= n < N ==> Excused(d, n))
    && (forall n :: 0 <= n < N ==> !(d.state[n] == Eating && d.state[Right(n)] == Eating))
  }

  ghost predicate Distinct(seats: seq<Tid>) {
    |seats| == N && forall i, j :: 0 <= i < j < N ==> seats[i] != seats[j]
  }

  ghost predicate Inv(seats: seq<Tid>, m: Monitor, d: Dining) {
    && Distinct(seats) && WellFormed(d) && |m.conditions| == N
    && (m.owner.Some? ==> m.owner.value in seats)
    && (forall i :: 0 <= i < N ==> Settled(seats[i], d.state[i], d.pc[i], m.conditions[i], m.owner))
    && Fair(d)
  }

  /** The table wraps around: neighbours of neighbours. */
  lemma Around(i: nat)
    requires i < N
    ensures Left(i) < N && Right(i) < N && Left(Right(i)) == i && Right(Left(i)) == i
    ensures Left(i) != i && Right(i) != i && Left(i) != Right(i)
  {
  }

  /** Only philosopher `i`, whose thread has or gets the lock, moves; `j` is the one it signals. */
  lemma OthersSettled(seats: seq<Tid>, m: Monitor, d: Dining, m': Monitor, d': Dining, i: nat, j: nat)
    requires Inv(seats, m, d) && i < N && j < N && WellFormed(d') && |m'.conditions| == N
    requires m.owner == None || m.owner == Some(seats[i])
    requires m'.owner == None || m'.owner == Some(seats[i])
    requires forall n :: 0 <= n < N && n != i ==> d'.pc[n] == d.pc[n]
    requires forall n :: 0 <= n < N && n != i && n != j ==>
               d'.state[n] == d.state[n] && m'.conditions[n] == m.conditions[n]
    requires forall n :: n == i || n == j ==> Settled(seats[n], d'.state[n], d'.pc[n], m'.conditions[n], m'.owner)
    ensures m'.owner.Some? ==> m'.owner.value in seats
    ensures forall n :: 0 <= n < N ==> Settled(seats[n], d'.state[n], d'.pc[n], m'.conditions[n], m'.owner)
  {
    forall n | 0 <= n < N
      ensures Settled(seats[n], d'.state[n], d'.pc[n], m'.conditions[n], m'.owner)
    {
      assert Settled(seats[n], d.state[n], d.pc[n], m.conditions[n], m.owner);
      assert n != i ==> seats[n] != seats[i];
    }
  }

  lemma StepKeepsInv(seats: seq<Tid>, m: Monitor, d: Dining, e: Event, d': Dining)
    requires Inv(seats, m, d) && CanHappen(m, e) && Step(seats, d, e, d')
    ensures Inv(seats, After(m, e), d')
  {
    hide Settled, Fair, After, CanHappen, Program;
    if e != Elsewhere {
      var i: nat :| PlayedBy(seats, d, e, d', i);
      match d.pc[i]
      case PickTest => PickKeepsInv(seats, m, d, i);
      case DropTest => DropKeepsInv(seats, m, d, i);
      case DropRight => RightKeepsInv(seats, m, d, i);
      case _ => MoveKeepsInv(seats, m, d, i);
    } else {
      assert After(m, e) == m by { ElsewhereStays(m); }
    }
  }

  lemma ElsewhereStays(m: Monitor)
    ensures CanHappen(m, Elsewhere) && After(m, Elsewhere) == m
  {
  }

  /** Getting and giving up the lock. */
  lemma MoveKeepsInv(seats: seq<Tid>, m: Monitor, d: Dining, i: nat)
    requires Inv(seats, m, d) && i < N && d.pc[i] in {Away, PickWait, PickRelease, Dines, DropRelease}
    requires CanHappen(m, Program(d, seats[i], i).0)
    ensures Inv(seats, After(m, Program(d, seats[i], i).0), Program(d, seats[i], i).1)
  {
    var m', d' := After(m, Program(d, seats[i], i).0), Program(d, seats[i], i).1;
    hide Left, Right, CanEat, Distinct;
    SettledAt(seats, m, d, i);
    NotWaiting(m, seats[i], i);
    OthersSettled(seats, m, d, m', d', i, i);
    forall n | 0 <= n < N
      ensures Excused(d', n)
    {
      Around(n);
      assert Excused(d, n);
    }
  }

  lemma NotWaiting(m: Monitor, t: Tid, c: nat)
    requires c < |m.conditions|
    ensures m.conditions[c] == [t] ==> Waits(m, t)
  {
    if m.conditions[c] == [t] { assert t in m.conditions[c]; }
  }

  lemma SettledAt(seats: seq<Tid>, m: Monitor, d: Dining, i: nat)
    requires Inv(seats, m, d) && i < N
    ensures Settled(seats[i], d.state[i], d.pc[i], m.conditions[i], m.owner)
    ensures forall n :: 0 <= n < N && n != i ==> seats[n] != seats[i]
  {
  }

  /** Philosopher `i` lets philosopher `j`, which it finds hungry, eat, and signals it. */
  lemma SignalKeepsInv(seats: seq<Tid>, m: Monitor, d: Dining, d': Dining, i: nat, j: nat)
    requires Inv(seats, m, d) && i < N && j < N && i != j && d.pc[i] in {DropTest, DropRight} && d.state[j] == Hungry
    requires WellFormed(d') && d'.state == d.state[i := Thinking][j := Eating] && Fair(d')
    requires d'.pc == d.pc[i := DropRight] || d'.pc == d.pc[i := DropRelease]
    ensures CanHappen(m, Notify(seats[i], j)) && Inv(seats, After(m, Notify(seats[i], j)), d')
  {
    hide Fair, Distinct;
    SettledAt(seats, m, d, i);
    SettledAt(seats, m, d, j);
    OthersSettled(seats, m, d, After(m, Notify(seats[i], j)), d', i, j);
  }

  /** Philosopher `i` gives the lock up at the end of putdown. */
  lemma LeaveKeepsInv(seats: seq<Tid>, m: Monitor, d: Dining, d': Dining, i: nat)
    requires Inv(seats, m, d) && i < N && d.pc[i] in {DropTest, DropRight}
    requires d' == Dining(d.state[i := Thinking], d.pc[i := Away]) && Fair(d')
    ensures CanHappen(m, Leave(seats[i])) && Inv(seats, After(m, Leave(seats[i])), d')
  {
    hide Fair, Distinct;
    SettledAt(seats, m, d, i);
    OthersSettled(seats, m, d, After(m, Leave(seats[i])), d', i, i);
  }

  // ---- pickup ----

  lemma PickKeepsInv(seats: seq<Tid>, m: Monitor, d: Dining, i: nat)
    requires Inv(seats, m, d) && i < N && d.pc[i] == PickTest
    requires CanHappen(m, Program(d, seats[i], i).0)
    ensures Inv(seats, After(m, Program(d, seats[i], i).0), Program(d, seats[i], i).1)
  {
    var state := PickState(d.state, i);
    hide Left, Right, CanEat, Excused, After, CanHappen, Inv, Settled;
    assert d.state[i] == Thinking by { PickThinks(seats, m, d, i); }
    assert Fair(d) by { InvFair(seats, m, d); }
    PickFair(d, i);
    if state[i] == Eating {
      PickedUp(seats, m, d, i);
    } else {
      PickWaits(seats, m, d, i);
    }
  }

  lemma InvFair(seats: seq<Tid>, m: Monitor, d: Dining)
    requires Inv(seats, m, d)
    ensures Fair(d)
  {
  }

  lemma PickThinks(seats: seq<Tid>, m: Monitor, d: Dining, i: nat)
    requires Inv(seats, m, d) && i < N && d.pc[i] == PickTest
    ensures d.state[i] == Thinking
  {
    SettledAt(seats, m, d, i);
  }

  /** Where pickup leaves the caller after its test. */
  function Picked(d: Dining, i: nat): Dining
    requires WellFormed(d) && i < N
  {
    var state := PickState(d.state, i);
    Dining(state, d.pc[i := if state[i] == Eating then PickRelease else PickWait])
  }

  lemma PickFair(d: Dining, i: nat)
    requires WellFormed(d) && Fair(d) && i < N && d.pc[i] == PickTest && d.state[i] == Thinking
    ensures Fair(Picked(d, i))
  {
    var d' := Picked(d, i);
    Around(i);
    forall n | 0 <= n < N
      ensures Excused(d', n) && !(d'.state[n] == Eating && d'.state[Right(n)] == Eating)
    {
      Around(n);
      assert Excused(d, n) && !(d.state[n] == Eating && d.state[Right(n)] == Eating);
    }
  }

  /** The test succeeds: the caller eats, and its signal finds nobody on its own condition. */
  lemma PickedUp(seats: seq<Tid>, m: Monitor, d: Dining, i: nat)
    requires Inv(seats, m, d) && i < N && d.pc[i] == PickTest && PickState(d.state, i)[i] == Eating
    requires Fair(Picked(d, i))
    ensures CanHappen(m, Notify(seats[i], i)) && Inv(seats, After(m, Notify(seats[i], i)), Picked(d, i))
  {
    hide Fair, Distinct, CanEat;
    SettledAt(seats, m, d, i);
    OthersSettled(seats, m, d, After(m, Notify(seats[i], i)), Picked(d, i), i, i);
  }

  /** The test fails: the caller gives the lock up and waits on its own condition. */
  lemma PickWaits(seats: seq<Tid>, m: Monitor, d: Dining, i: nat)
    requires Inv(seats, m, d) && i < N && d.pc[i] == PickTest && PickState(d.state, i)[i] != Eating
    requires Fair(Picked(d, i))
    ensures CanHappen(m, Suspend(seats[i], i)) && Inv(seats, After(m, Suspend(seats[i], i)), Picked(d, i))
  {
    hide Fair, Distinct, CanEat;
    SettledAt(seats, m, d, i);
    OthersSettled(seats, m, d, After(m, Suspend(seats[i], i)), Picked(d, i), i, i);
  }

  // ---- putdown ----

  /** The test of the right neighbour, the last thing putdown does. */
  lemma TestRightKeepsInv(seats: seq<Tid>, m: Monitor, d: Dining, i: nat)
    requires Inv(seats, m, d) && i < N && d.pc[i] in {DropTest, DropRight}
    requires Fair(TestRight(d.(state := d.state[i := Thinking]), seats[i], i).1)
    ensures var (e, d') := TestRight(d.(state := d.state[i := Thinking]), seats[i], i);
            CanHappen(m, e) && Inv(seats, After(m, e), d')
  {
    var state := d.state[i := Thinking];
    Around(i);
    if CanEat(state, Right(i)) {
      var d' := Dining(state[Right(i) := Eating], d.pc[i := DropRelease]);
      assert d.state[Right(i)] == Hungry;
      hide Left, Right, CanEat, Inv, After, CanHappen, Fair;
      SignalKeepsInv(seats, m, d, d', i, Right(i));
    } else {
      hide Left, Right, CanEat, Inv, After, CanHappen, Fair;
      LeaveKeepsInv(seats, m, d, Dining(state, d.pc[i := Away]), i);
    }
  }

  /** The second test of putdown leaves nobody unexcused. */
  lemma RightKeepsInv(seats: seq<Tid>, m: Monitor, d: Dining, i: nat)
    requires Inv(seats, m, d) && i < N && d.pc[i] == DropRight
    requires CanHappen(m, Program(d, seats[i], i).0)
    ensures Inv(seats, After(m, Program(d, seats[i], i).0), Program(d, seats[i], i).1)
  {
    hide TestRight, CanHappen, After, Left, Right;
    SettledAt(seats, m, d, i);
    assert d.(state := d.state[i := Thinking]) == d;
    hide Inv, Settled;
    InvFair(seats, m, d);
    RightFair(d, seats[i], i);
    TestRightKeepsInv(seats, m, d, i);
  }

  lemma RightFair(d: Dining, t: Tid, i: nat)
    requires WellFormed(d) && Fair(d) && i < N && d.pc[i] == DropRight && d.state[i] == Thinking
    ensures Fair(TestRight(d, t, i).1)
  {
    var d' := TestRight(d, t, i).1;
    Around(i);
    forall n | 0 <= n < N
      ensures Excused(d', n) && !(d'.state[n] == Eating && d'.state[Right(n)] == Eating)
    {
      Around(n);
      assert Excused(d, n) && !(d.state[n] == Eating && d.state[Right(n)] == Eating);
    }
  }

  /** The first test of putdown: the left neighbour eats, or is excused otherwise, and the right one
      is tested next. */
  lemma DropKeepsInv(seats: seq<Tid>, m: Monitor, d: Dining, i: nat)
    requires Inv(seats, m, d) && i < N && d.pc[i] == DropTest
    requires CanHappen(m, Program(d, seats[i], i).0)
    ensures Inv(seats, After(m, Program(d, seats[i], i).0), Program(d, seats[i], i).1)
  {
    hide TestRight, CanHappen, After, Left, Right, Settled, Fair, CanEat;
    assert d.state[i] == Eating by { DropEats(seats, m, d, i); }
    hide Inv;
    InvFair(seats, m, d);
    Around(i);
    if CanEat(d.state[i := Thinking], Left(i)) {
      DropLeftKeepsInv(seats, m, d, i);
    } else {
      DropBoth(d, seats[i], i);
      TestRightKeepsInv(seats, m, d, i);
    }
  }

  lemma DropEats(seats: seq<Tid>, m: Monitor, d: Dining, i: nat)
    requires Inv(seats, m, d) && i < N && d.pc[i] == DropTest
    ensures d.state[i] == Eating
  {
    SettledAt(seats, m, d, i);
  }

  lemma DropLeftKeepsInv(seats: seq<Tid>, m: Monitor, d: Dining, i: nat)
    requires Inv(seats, m, d) && i < N && d.pc[i] == DropTest && d.state[i] == Eating
    requires CanEat(d.state[i := Thinking], Left(i))
    ensures CanHappen(m, Notify(seats[i], Left(i)))
    ensures Inv(seats, After(m, Notify(seats[i], Left(i))),
                Dining(d.state[i := Thinking][Left(i) := Eating], d.pc[i := DropRight]))
  {
    Around(i);
    assert d.state[Left(i)] == Hungry;
    hide Left, Right, CanEat, Inv, After, CanHappen, Fair, Settled;
    InvFair(seats, m, d);
    DropLeft(d, i);
    SignalKeepsInv(seats, m, d, Dining(d.state[i := Thinking][Left(i) := Eating], d.pc[i := DropRight]), i, Left(i));
  }

  lemma DropLeft(d: Dining, i: nat)
    requires WellFormed(d) && Fair(d) && i < N && d.state[i] == Eating && CanEat(d.state[i := Thinking], Left(i))
    requires d.pc[i] == DropTest
    ensures Fair(Dining(d.state[i := Thinking][Left(i) := Eating], d.pc[i := DropRight]))
  {
    var d' := Dining(d.state[i := Thinking][Left(i) := Eating], d.pc[i := DropRight]);
    Around(i);
    Around(Left(i));
    forall n | 0 <= n < N
      ensures Excused(d', n) && !(d'.state[n] == Eating && d'.state[Right(n)] == Eating)
    {
      Around(n);
      assert Excused(d, n) && !(d.state[n] == Eating && d.state[Right(n)] == Eating);
    }
  }

  lemma DropBoth(d: Dining, t: Tid, i: nat)
    requires WellFormed(d) && Fair(d) && i < N && d.state[i] == Eating && !CanEat(d.state[i := Thinking], Left(i))
    requires d.pc[i] == DropTest
    ensures Fair(TestRight(d.(state := d.state[i := Thinking]), t, i).1)
  {
    var d' := TestRight(d.(state := d.state[i := Thinking]), t, i).1;
    Around(i);
    Around(Right(i));
    forall n | 0 <= n < N
      ensures Excused(d', n) && !(d'.state[n] == Eating && d'.state[Right(n)] == Eating)
    {
      Around(n);
      assert Excused(d, n) && !(d.state[n] == Eating && d.state[Right(n)] == Eating);
    }
  }

  // ---- Every run ----

  /** Before anyone calls, everybody is thinking. */
  ghost predicate Initially(seats: seq<Tid>, d: Dining) {
    Distinct(seats) && d == Dining(seq(N, _ => Thinking), seq(N, _ => Away))
  }

  /** A run of the kernel in which lock `l` and its five conditions belong to the philosophers. */
  ghost predicate DiningRun(states: seq<Kernel>, actions: seq<Action>, l: nat, seats: seq<Tid>, ds: seq<Dining>) {
    && Run(states, actions) && l < |states[0].locks| && |states[0].locks[l].conditions| == N
    && |ds| == |states| == |actions| + 1 && Initially(seats, ds[0])
    && forall n :: 0 <= n < |actions| ==> DiningStep(states[n], actions[n], l, seats, ds[n], ds[n + 1])
  }

  ghost predicate DiningStep(k: Kernel, a: Action, l: nat, seats: seq<Tid>, d: Dining, d': Dining) {
    |seats| == N && WellFormed(d) && l < |k.locks| && Enabled(k, a) && Step(seats, d, EventOf(k, a, l), d')
  }

  lemma {:induction false} RunKeepsDining(states: seq<Kernel>, actions: seq<Action>, l: nat, seats: seq<Tid>,
                                          ds: seq<Dining>, n: nat)
    requires DiningRun(states, actions, l, seats, ds) && n < |states|
    ensures l < |states[n].locks| && Inv(seats, View(states[n], l), ds[n])
  {
    hide Inv, Step, EventOf, CanHappen, After, Enabled, Run;
    if n == 0 {
      FirstState(states, actions, l, seats, ds[0]);
    } else {
      RunKeepsDining(states, actions, l, seats, ds, n - 1);
      assert DiningStep(states[n - 1], actions[n - 1], l, seats, ds[n - 1], ds[n]);
      MonitorStep(states, actions, l, n - 1);
      StepKeepsInv(seats, View(states[n - 1], l), ds[n - 1], EventOf(states[n - 1], actions[n - 1], l), ds[n]);
    }
  }

  lemma FirstState(states: seq<Kernel>, actions: seq<Action>, l: nat, seats: seq<Tid>, d: Dining)
    requires Run(states, actions) && l < |states[0].locks| && |states[0].locks[l].conditions| == N
    requires Initially(seats, d)
    ensures Inv(seats, View(states[0], l), d)
  {
    NobodyWaits(states[0], l);
    NoQueues(View(states[0], l));
  }

  /** In every state of every run: no two neighbours eat; while the lock is free, each hungry
      philosopher has an eating neighbour and its thread is queued on its own condition; and a
      thread that has returned from pickup plays an eating philosopher. */
  lemma Philosophers(states: seq<Kernel>, actions: seq<Action>, l: nat, seats: seq<Tid>, ds: seq<Dining>,
                     n: nat, i: nat)
    requires DiningRun(states, actions, l, seats, ds) && n < |states| && i < N
    ensures l < |states[n].locks| && |states[n].locks[l].conditions| == N && WellFormed(ds[n])
    ensures var (left, right) := (if i == 0 then 4 else i - 1, if i == 4 then 0 else i + 1);
            && !(ds[n].state[i] == Eating && (ds[n].state[left] == Eating || ds[n].state[right] == Eating))
            && (states[n].locks[l].owner == None && ds[n].state[i] == Hungry ==>
                  (ds[n].state[left] == Eating || ds[n].state[right] == Eating)
                  && states[n].locks[l].conditions[i] == [seats[i]])
    ensures ds[n].pc[i] == PickRelease || ds[n].pc[i] == Dines ==> ds[n].state[i] == Eating
  {
    hide Run, DiningStep;
    RunKeepsDining(states, actions, l, seats, ds, n);
    Around(i);
    Neighbours(i);
    assert !(ds[n].state[Left(i)] == Eating && ds[n].state[Right(Left(i))] == Eating);
    SettledAt(seats, View(states[n], l), ds[n], i);
    SettledAt(seats, View(states[n], l), ds[n], Left(i));
    assert Excused(ds[n], i);
  }

  /** Philosopher `i` comes out of the stretch of code it is in. */
  ghost predicate Moves(d: Dining, d': Dining, i: nat) {
    WellFormed(d) && WellFormed(d') && i < N && d'.pc[i] != d.pc[i]
  }

  /** The one who moves at a step is the one who has the processor, and moves as its program says. */
  lemma MoverPlays(states: seq<Kernel>, actions: seq<Action>, l: nat, seats: seq<Tid>, ds: seq<Dining>, n: nat, i: nat)
    requires DiningRun(states, actions, l, seats, ds) && n < |actions| && Moves(ds[n], ds[n + 1], i)
    ensures |seats| == N && l < |states[n].locks| && Enabled(states[n], actions[n])
    ensures Program(ds[n], seats[i], i) == (EventOf(states[n], actions[n], l), ds[n + 1])
    ensures states[n].running == Some(seats[i])
  {
    hide Run, Enabled, EventOf;
    assert DiningStep(states[n], actions[n], l, seats, ds[n], ds[n + 1]);
    var e := EventOf(states[n], actions[n], l);
    var j: nat :| PlayedBy(seats, ds[n], e, ds[n + 1], j);
    if j != i { OnlyOwnPc(ds[n], seats[j], j, i); }
    EventIsRunners(states[n], actions[n], l);
  }

  lemma OnlyOwnPc(d: Dining, t: Tid, j: nat, i: nat)
    requires WellFormed(d) && i < N && j < N && i != j
    ensures WellFormed(Program(d, t, j).1) && Program(d, t, j).1.pc[i] == d.pc[i]
  {
    hide CanEat;
  }

  /** pickup, once the lock is taken: with neither neighbour eating the caller eats, and its signal is for
      itself; otherwise it is hungry and waits. Nobody else's state changes. */
  lemma PickupOutcome(states: seq<Kernel>, actions: seq<Action>, l: nat, seats: seq<Tid>, ds: seq<Dining>,
                      n: nat, i: nat)
    requires DiningRun(states, actions, l, seats, ds) && n < |actions| && Moves(ds[n], ds[n + 1], i)
    requires ds[n].pc[i] == PickTest
    ensures var (left, right) := (if i == 0 then 4 else i - 1, if i == 4 then 0 else i + 1);
            if ds[n].state[left] != Eating && ds[n].state[right] != Eating then
              actions[n] == Signal(l, i) && ds[n + 1] == Dining(ds[n].state[i := Eating], ds[n].pc[i := PickRelease])
            else
              actions[n] == Wait(l, i) && ds[n + 1] == Dining(ds[n].state[i := Hungry], ds[n].pc[i := PickWait])
  {
    hide DiningRun, Enabled;
    MoverPlays(states, actions, l, seats, ds, n, i);
    Neighbours(i);
  }

  /** putdown, once the lock is taken: the caller thinks; the left neighbour, if it is hungry and its own left
      neighbour does not eat, eats and is signalled; otherwise the right one is looked at in the same way. */
  lemma PutdownOutcome(states: seq<Kernel>, actions: seq<Action>, l: nat, seats: seq<Tid>, ds: seq<Dining>,
                       n: nat, i: nat)
    requires DiningRun(states, actions, l, seats, ds) && n < |actions| && Moves(ds[n], ds[n + 1], i)
    requires ds[n].pc[i] == DropTest || ds[n].pc[i] == DropRight
    ensures var (left, right) := (if i == 0 then 4 else i - 1, if i == 4 then 0 else i + 1);
            var (farLeft, farRight) := (if i <= 1 then i + 3 else i - 2, if i >= 3 then i - 3 else i + 2);
            var state := ds[n].state[i := Thinking];
            if ds[n].pc[i] == DropTest && state[left] == Hungry && state[farLeft] != Eating then
              actions[n] == Signal(l, left) && ds[n + 1] == Dining(state[left := Eating], ds[n].pc[i := DropRight])
            else if state[right] == Hungry && state[farRight] != Eating then
              actions[n] == Signal(l, right) && ds[n + 1] == Dining(state[right := Eating], ds[n].pc[i := DropRelease])
            else
              actions[n] == Release(l) && ds[n + 1] == Dining(state, ds[n].pc[i := Away])
  {
    hide Run, DiningStep, Inv, EventOf, Program, Enabled;
    MoverPlays(states, actions, l, seats, ds, n, i);
    RunKeepsDining(states, actions, l, seats, ds, n);
    if ds[n].pc[i] == DropRight { DropThinks(seats, View(states[n], l), ds[n], i); }
    PutdownProgram(ds[n], seats[i], i);
    EventAction(states[n], actions[n], l);
  }

  lemma DropThinks(seats: seq<Tid>, m: Monitor, d: Dining, i: nat)
    requires Inv(seats, m, d) && i < N && d.pc[i] == DropRight
    ensures d.state[i := Thinking] == d.state
  {
    SettledAt(seats, m, d, i);
  }

  lemma PutdownProgram(d: Dining, t: Tid, i: nat)
    requires WellFormed(d) && i < N && d.pc[i] in {DropTest, DropRight}
    requires d.pc[i] == DropRight ==> d.state[i := Thinking] == d.state
    ensures var (left, right) := (if i == 0 then 4 else i - 1, if i == 4 then 0 else i + 1);
            var (farLeft, farRight) := (if i <= 1 then i + 3 else i - 2, if i >= 3 then i - 3 else i + 2);
            var state := d.state[i := Thinking];
            Program(d, t, i) ==
            if d.pc[i] == DropTest && state[left] == Hungry && state[farLeft] != Eating then
              (Notify(t, left), Dining(state[left := Eating], d.pc[i := DropRight]))
            else if state[right] == Hungry && state[farRight] != Eating then
              (Notify(t, right), Dining(state[right := Eating], d.pc[i := DropRelease]))
            else
              (Leave(t), Dining(state, d.pc[i := Away]))
  {
    Neighbours(i);
    Neighbours(Left(i));
    Neighbours(Right(i));
  }

  /** Elsewhere nobody's state changes, and the stretches follow one another. */
  lemma OtherMoves(states: seq<Kernel>, actions: seq<Action>, l: nat, seats: seq<Tid>, ds: seq<Dining>, n: nat, i: nat)
    requires DiningRun(states, actions, l, seats, ds) && n < |actions| && Moves(ds[n], ds[n + 1], i)
    requires ds[n].pc[i] !in {PickTest, DropTest, DropRight}
    ensures ds[n + 1].state == ds[n].state
    ensures ds[n + 1].pc == ds[n].pc[i := match ds[n].pc[i]
                                            case Away => PickTest
                                            case PickWait => PickRelease
                                            case PickRelease => Dines
                                            case Dines => DropTest
                                            case _ => Away]
    ensures ds[n].pc[i] == PickRelease || ds[n].pc[i] == DropRelease ==> actions[n] == Release(l)
  {
    hide DiningRun, Enabled, CanEat;
    MoverPlays(states, actions, l, seats, ds, n, i);
  }

  ghost predicate SomeoneMoves(d: Dining, d': Dining) {
    exists i :: Moves(d, d', i)
  }

  /** A state changes only as somebody moves. */
  lemma OnlyMovesChange(states: seq<Kernel>, actions: seq<Action>, l: nat, seats: seq<Tid>, ds: seq<Dining>, n: nat)
    requires DiningRun(states, actions, l, seats, ds) && n < |actions| && ds[n + 1] != ds[n]
    ensures SomeoneMoves(ds[n], ds[n + 1])
  {
    hide Run, EventOf, Enabled;
    assert DiningStep(states[n], actions[n], l, seats, ds[n], ds[n + 1]);
    var i: nat :| PlayedBy(seats, ds[n], EventOf(states[n], actions[n], l), ds[n + 1], i);
    PlayerMoves(ds[n], seats[i], i);
  }

  lemma PlayerMoves(d: Dining, t: Tid, i: nat)
    requires WellFormed(d) && i < N
    ensures Moves(d, Program(d, t, i).1, i)
  {
    hide CanEat;
  }
}
