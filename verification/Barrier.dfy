/** The reusable barrier (threads/synch.cc, class Barrier): a counter under a lock, and one condition
    on which all but the last thread of a generation wait, without a loop around the Wait. */
module Barriers {
  import opened Kernels
  import opened KernelSafety
  import opened Monitors

  /** Where a thread is in Barrier::Wait: it holds the lock and has not counted itself yet, it waits
      for its generation, it is on its way out, or it has just woken its generation. */
  datatype Pc = Entered | Asleep(g: nat) | Leaving(g: nat) | Resetting(g: nat)

  /** The counter, the threads inside, and two records per generation: who arrived in it, and who
      has returned from it. The last generation is the one being formed. */
  datatype Barrier = Barrier(
    maxCount: nat,
    currentCount: nat,
    pc: map<Tid, Pc>,
    arrived: seq<set<Tid>>,
    returned: seq<set<Tid>>)

  function Current(b: Barrier): int { |b.arrived| - 1 }

  predicate WellFormed(b: Barrier) {
    b.maxCount >= 1 && |b.arrived| >= 1 && |b.returned| == |b.arrived|
  }

  /** Thread `t` counts itself into the generation being formed. */
  function Arrive(b: Barrier, t: Tid, pc: Pc): Barrier
    requires WellFormed(b)
  {
    var g := Current(b);
    b.(currentCount := b.currentCount + 1, pc := b.pc[t := pc], arrived := b.arrived[g := b.arrived[g] + {t}])
  }

  /** Thread `t` returns from generation `g`. */
  function Return(b: Barrier, t: Tid, g: nat): Barrier
    requires WellFormed(b) && g < |b.returned|
  {
    b.(pc := b.pc - {t}, returned := b.returned[g := b.returned[g] + {t}])
  }

  /** The last thread sets the counter back: the next generation starts. */
  function Reset(b: Barrier): Barrier {
    b.(currentCount := 0, arrived := b.arrived + [{}], returned := b.returned + [{}])
  }

  /** The next event of a thread's call of Barrier::Wait, and what the barrier has become by then.
      The plain code between two kernel calls belongs to the second of them. */
  function Program(b: Barrier, t: Tid): (Event, Barrier)
    requires WellFormed(b)
    requires t in b.pc && (b.pc[t].Leaving? || b.pc[t].Resetting?) ==> b.pc[t].g < |b.returned|
  {
    if t !in b.pc then (Grant(t), b.(pc := b.pc[t := Entered]))
    else match b.pc[t]
      case Entered =>
        if b.currentCount + 1 == b.maxCount then (NotifyAll(t, 0), Arrive(b, t, Resetting(Current(b))))
        else (Suspend(t, 0), Arrive(b, t, Asleep(Current(b))))
      case Asleep(g) => (Grant(t), b.(pc := b.pc[t := Leaving(g)]))
      case Leaving(g) => (Leave(t), Return(b, t, g))
      case Resetting(g) => (Leave(t), Reset(Return(b, t, g)))
  }

  predicate InRange(b: Barrier, t: Tid) {
    t in b.pc && (b.pc[t].Leaving? || b.pc[t].Resetting?) ==> b.pc[t].g < |b.returned|
  }

  ghost predicate Step(b: Barrier, e: Event, b': Barrier) {
    if e == Elsewhere then b' == b else WellFormed(b) && InRange(b, e.t) && Program(b, e.t) == (e, b')
  }

  /** Any thread outside may call Wait. */
  lemma MayEnter(b: Barrier, t: Tid)
    ensures WellFormed(b) && t !in b.pc ==> Step(b, Grant(t), b.(pc := b.pc[t := Entered]))
  {
  }

  // ---- The invariant ----

  predicate HoldsLock(pc: Pc) { !pc.Asleep? }

  /** Thread `t` is inside the barrier as a member of generation `g`. */
  predicate Inside(b: Barrier, t: Tid, g: nat) {
    t in b.pc && !b.pc[t].Entered? && b.pc[t].g == g
  }

  /** Somebody has woken the generation and is about to set the counter back. */
  ghost predicate Ending(b: Barrier) {
    b.currentCount == b.maxCount
  }

  /** Each arrival of a generation is inside or has returned, not both. */
  ghost predicate Accounted(b: Barrier, g: nat)
    requires WellFormed(b) && g < |b.arrived|
  {
    forall t ::
      (t in b.arrived[g] <==> t in b.returned[g] || Inside(b, t, g)) && !(t in b.returned[g] && Inside(b, t, g))
  }

  /** Every earlier generation was full. */
  ghost predicate PastFull(b: Barrier) {
    forall g :: 0 <= g < Current(b) ==> |b.arrived[g]| == b.maxCount
  }

  /** What the counter, the queue and the records say of the generation being formed. */
  ghost predicate Forming(b: Barrier, queue: seq<Tid>)
    requires WellFormed(b)
  {
    var g := Current(b);
    && b.currentCount == |b.arrived[g]| <= b.maxCount
    && b.returned[g] == {}
    && (if Ending(b) then queue == []
        else |queue| == b.currentCount && forall t :: t in queue <==> t in b.arrived[g])
  }

  /** A thread's place in the call agrees with the lock and the generations. */
  ghost predicate Consistent(b: Barrier, t: Tid, owner: Option<Tid>)
    requires WellFormed(b) && t in b.pc
  {
    && (HoldsLock(b.pc[t]) <==> owner == Some(t))
    && match b.pc[t]
       case Entered => !Ending(b)
       case Asleep(g) => g <= Current(b)
       case Leaving(g) => g < Current(b)
       case Resetting(g) => g == Current(b) && Ending(b)
  }

  ghost predicate Inv(m: Monitor, b: Barrier) {
    && WellFormed(b) && |m.conditions| >= 1
    && Forming(b, m.conditions[0])
    && PastFull(b)
    && (forall g :: 0 <= g < |b.arrived| ==> Accounted(b, g))
    && (forall t :: t in b.pc ==> Consistent(b, t, m.owner))
    && (m.owner.Some? ==> m.owner.value in b.pc)
    && (Ending(b) ==> m.owner.Some? && b.pc[m.owner.value].Resetting?)
  }

  lemma StepKeepsInv(m: Monitor, b: Barrier, e: Event, b': Barrier)
    requires Inv(m, b) && CanHappen(m, e) && Step(b, e, b')
    ensures Inv(After(m, e), b')
  {
    if e != Elsewhere {
      if e.t !in b.pc { EnterKeepsInv(m, b, e.t); }
      else {
        match b.pc[e.t]
        case Entered => ArriveKeepsInv(m, b, e.t);
        case Asleep(g) => WokenKeepsInv(m, b, e.t);
        case Leaving(g) => LeaveKeepsInv(m, b, e.t);
        case Resetting(g) => ResetKeepsInv(m, b, e.t);
      }
    }
  }

  lemma EnterKeepsInv(m: Monitor, b: Barrier, t: Tid)
    requires Inv(m, b) && CanHappen(m, Grant(t)) && t !in b.pc
    ensures Inv(After(m, Grant(t)), Program(b, t).1)
  {
    var b' := Program(b, t).1;
    assert forall u, g :: Inside(b', u, g) <==> Inside(b, u, g);
    forall g | 0 <= g < |b.arrived|
      ensures Accounted(b', g)
    {
      assert Accounted(b, g);
    }
    forall u | u in b'.pc
      ensures Consistent(b', u, Some(t))
    {
      if u != t { assert Consistent(b, u, m.owner); }
    }
  }

  lemma WokenKeepsInv(m: Monitor, b: Barrier, t: Tid)
    requires Inv(m, b) && CanHappen(m, Grant(t)) && t in b.pc && b.pc[t].Asleep?
    ensures Inv(After(m, Grant(t)), Program(b, t).1)
  {
    var b' := Program(b, t).1;
    assert forall u, g :: Inside(b', u, g) <==> Inside(b, u, g);
    forall g | 0 <= g < |b.arrived|
      ensures Accounted(b', g)
    {
      assert Accounted(b, g);
    }
    assert t !in m.conditions[0];
    assert Accounted(b, Current(b));
    forall u | u in b'.pc
      ensures Consistent(b', u, Some(t))
    {
      assert Consistent(b, u, m.owner);
    }
  }

  lemma LeaveKeepsInv(m: Monitor, b: Barrier, t: Tid)
    requires Inv(m, b) && CanHappen(m, Leave(t)) && t in b.pc && b.pc[t].Leaving?
    ensures InRange(b, t) && Inv(After(m, Leave(t)), Program(b, t).1)
  {
    assert Consistent(b, t, m.owner);
    var b' := Program(b, t).1;
    forall g | 0 <= g < |b.arrived|
      ensures Accounted(b', g)
    {
      assert Accounted(b, g);
      forall u
        ensures Inside(b', u, g) <==> Inside(b, u, g) && u != t
      {
      }
    }
    forall u | u in b'.pc
      ensures Consistent(b', u, None)
    {
      assert Consistent(b, u, m.owner);
    }
  }

  /** A new arrival belongs to the generation being formed, and to no other. */
  lemma ArrivalAccounted(m: Monitor, b: Barrier, t: Tid, pc: Pc)
    requires Inv(m, b) && t in b.pc && b.pc[t].Entered? && !pc.Entered? && pc.g == Current(b)
    ensures t !in b.arrived[Current(b)]
    ensures forall g :: 0 <= g < |b.arrived| ==> Accounted(Arrive(b, t, pc), g)
  {
    var b' := Arrive(b, t, pc);
    assert Accounted(b, Current(b));
    forall g | 0 <= g < |b'.arrived|
      ensures Accounted(b', g)
    {
      assert Accounted(b, g);
      assert forall u :: u != t ==> (Inside(b', u, g) <==> Inside(b, u, g));
      assert Inside(b', t, g) <==> g == Current(b);
    }
  }

  /** The new arrival completes its generation and wakes all the others. */
  lemma LastKeepsInv(m: Monitor, b: Barrier, t: Tid)
    requires Inv(m, b) && t in b.pc && b.pc[t].Entered? && m.owner == Some(t) && b.currentCount + 1 == b.maxCount
    ensures Inv(After(m, NotifyAll(t, 0)), Arrive(b, t, Resetting(Current(b))))
  {
    hide Accounted;
    ArrivalAccounted(m, b, t, Resetting(Current(b)));
    forall u | u in b.pc
      ensures Consistent(b, u, m.owner)
    {
    }
  }

  /** The new arrival waits for others. */
  lemma EarlyKeepsInv(m: Monitor, b: Barrier, t: Tid)
    requires Inv(m, b) && t in b.pc && b.pc[t].Entered? && m.owner == Some(t) && b.currentCount + 1 != b.maxCount
    ensures Inv(After(m, Suspend(t, 0)), Arrive(b, t, Asleep(Current(b))))
  {
    hide Accounted;
    ArrivalAccounted(m, b, t, Asleep(Current(b)));
    assert Consistent(b, t, m.owner);
    forall u | u in b.pc
      ensures Consistent(b, u, m.owner)
    {
    }
  }

  /** The counter goes up with a new arrival, which either waits or wakes all the others. */
  lemma ArriveKeepsInv(m: Monitor, b: Barrier, t: Tid)
    requires Inv(m, b) && t in b.pc && b.pc[t].Entered? && CanHappen(m, Program(b, t).0)
    ensures Inv(After(m, Program(b, t).0), Program(b, t).1)
  {
    hide Inv, After;
    if b.currentCount + 1 == b.maxCount { LastKeepsInv(m, b, t); } else { EarlyKeepsInv(m, b, t); }
  }

  /** Setting the counter back starts a generation with nobody in it. */
  lemma ResetKeepsInv(m: Monitor, b: Barrier, t: Tid)
    requires Inv(m, b) && t in b.pc && b.pc[t].Resetting? && CanHappen(m, Leave(t))
    ensures InRange(b, t) && Inv(After(m, Leave(t)), Program(b, t).1)
  {
    assert Consistent(b, t, m.owner);
    var b' := Program(b, t).1;
    forall h | 0 <= h < |b'.arrived|
      ensures Accounted(b', h)
    {
      assert h < |b.arrived| ==> Accounted(b, h);
      forall u
        ensures Inside(b', u, h) <==> Inside(b, u, h) && u != t
      {
      }
      if h == |b.arrived| {
        forall u
          ensures !Inside(b', u, h)
        {
          if u in b.pc { assert Consistent(b, u, m.owner); }
        }
      }
    }
    forall u | u in b'.pc
      ensures Consistent(b', u, None)
    {
      assert Consistent(b, u, m.owner);
    }
  }

  // ---- Every run ----

  ghost predicate Initially(b: Barrier) {
    b.maxCount >= 1 && b == Barrier(b.maxCount, 0, map[], [{}], [{}])
  }

  /** A new barrier for any count from 1 on. */
  lemma NewBarrier(maxCount: nat)
    ensures maxCount >= 1 <==> Initially(Barrier(maxCount, 0, map[], [{}], [{}]))
  {
  }

  /** A run of the kernel in which lock `l` and its condition belong to a barrier. */
  ghost predicate BarrierRun(states: seq<Kernel>, actions: seq<Action>, l: nat, bs: seq<Barrier>) {
    && Run(states, actions) && l < |states[0].locks| && |states[0].locks[l].conditions| >= 1
    && |bs| == |states| == |actions| + 1 && Initially(bs[0])
    && forall n :: 0 <= n < |actions| ==> BarrierStep(states[n], actions[n], l, bs[n], bs[n + 1])
  }

  ghost predicate BarrierStep(k: Kernel, a: Action, l: nat, b: Barrier, b': Barrier) {
    l < |k.locks| && Enabled(k, a) && Step(b, EventOf(k, a, l), b')
  }

  lemma {:induction false} RunKeepsBarrier(states: seq<Kernel>, actions: seq<Action>, l: nat, bs: seq<Barrier>, n: nat)
    requires BarrierRun(states, actions, l, bs) && n < |states|
    ensures l < |states[n].locks| && Inv(View(states[n], l), bs[n])
  {
    hide Inv, Step, EventOf, CanHappen, After, Enabled, Run;
    if n == 0 {
      FirstState(states, actions, l, bs[0]);
    } else {
      RunKeepsBarrier(states, actions, l, bs, n - 1);
      assert BarrierStep(states[n - 1], actions[n - 1], l, bs[n - 1], bs[n]);
      MonitorStep(states, actions, l, n - 1);
      StepKeepsInv(View(states[n - 1], l), bs[n - 1], EventOf(states[n - 1], actions[n - 1], l), bs[n]);
    }
  }

  lemma FirstState(states: seq<Kernel>, actions: seq<Action>, l: nat, b: Barrier)
    requires Run(states, actions) && l < |states[0].locks| && |states[0].locks[l].conditions| >= 1 && Initially(b)
    ensures Inv(View(states[0], l), b)
  {
    NobodyWaits(states[0], l);
    NoQueues(View(states[0], l));
  }

  /** In every state of every run: a thread that has returned from generation `g` was one of exactly
      maxCount arrivals of it; no member of an earlier generation still waits on the condition; once
      nobody is inside any more, exactly the arrivals have returned; and while the lock is free the
      queue of the condition is as long as the counter says, short of maxCount. */
  lemma Generations(states: seq<Kernel>, actions: seq<Action>, l: nat, bs: seq<Barrier>, n: nat, g: nat)
    requires BarrierRun(states, actions, l, bs) && n < |states|
    requires WellFormed(bs[n]) && g < |bs[n].arrived|
    ensures bs[n].returned[g] <= bs[n].arrived[g] && |bs[n].arrived[g]| <= bs[n].maxCount
    ensures bs[n].returned[g] != {} ==> |bs[n].arrived[g]| == bs[n].maxCount
    ensures (forall t :: !Inside(bs[n], t, g)) ==> bs[n].returned[g] == bs[n].arrived[g]
    ensures l < |states[n].locks| && |states[n].locks[l].conditions| >= 1
    ensures states[n].locks[l].owner == None ==>
              |states[n].locks[l].conditions[0]| == bs[n].currentCount < bs[n].maxCount
    ensures g < Current(bs[n]) ==> |bs[n].arrived[g]| == bs[n].maxCount
    ensures forall t :: g < Current(bs[n]) && Inside(bs[n], t, g) ==> t !in states[n].locks[l].conditions[0]
  {
    hide Run, BarrierStep;
    RunKeepsBarrier(states, actions, l, bs, n);
    assert Accounted(bs[n], g) && Accounted(bs[n], Current(bs[n]));
  }

  /** Barrier::Wait returns only in a generation that maxCount threads have arrived in. */
  lemma ReturnsTogether(states: seq<Kernel>, actions: seq<Action>, l: nat, bs: seq<Barrier>, n: nat, t: Tid)
    requires BarrierRun(states, actions, l, bs) && n + 1 < |states| && WellFormed(bs[n])
    requires t in bs[n].pc && t !in bs[n + 1].pc
    ensures !bs[n].pc[t].Entered? && bs[n].pc[t].g < |bs[n].arrived|
    ensures |bs[n].arrived[bs[n].pc[t].g]| == bs[n].maxCount && t in bs[n].arrived[bs[n].pc[t].g]
  {
    hide Run, EventOf;
    RunKeepsBarrier(states, actions, l, bs, n);
    assert BarrierStep(states[n], actions[n], l, bs[n], bs[n + 1]);
    assert Consistent(bs[n], t, View(states[n], l).owner);
    assert !bs[n].pc[t].Entered? ==> Accounted(bs[n], bs[n].pc[t].g);
  }

  /** Thread `t` comes out of the stretch of code it is in. */
  ghost predicate Moves(b: Barrier, b': Barrier, t: Tid) {
    t in b.pc && (t !in b'.pc || b'.pc[t] != b.pc[t])
  }

  /** The one who moves at a step is the one who has the processor, and moves as its program says. */
  lemma MoverPlays(states: seq<Kernel>, actions: seq<Action>, l: nat, bs: seq<Barrier>, n: nat, t: Tid)
    requires BarrierRun(states, actions, l, bs) && n < |actions| && Moves(bs[n], bs[n + 1], t)
    ensures l < |states[n].locks| && Enabled(states[n], actions[n]) && WellFormed(bs[n]) && InRange(bs[n], t)
    ensures Program(bs[n], t) == (EventOf(states[n], actions[n], l), bs[n + 1]) && states[n].running == Some(t)
  {
    hide Run, Enabled, EventOf;
    assert BarrierStep(states[n], actions[n], l, bs[n], bs[n + 1]);
    EventIsRunners(states[n], actions[n], l);
  }

  /** A thread that has entered arrives: the counter and the generation being formed grow by it, and it
      wakes everybody exactly if it is the maxCount-th, else it waits. */
  lemma ArrivalCounts(states: seq<Kernel>, actions: seq<Action>, l: nat, bs: seq<Barrier>, n: nat, t: Tid)
    requires BarrierRun(states, actions, l, bs) && n < |actions| && Moves(bs[n], bs[n + 1], t) && bs[n].pc[t].Entered?
    ensures |bs[n].arrived| >= 1
    ensures var (b, b', g) := (bs[n], bs[n + 1], |bs[n].arrived| - 1);
            && b'.currentCount == b.currentCount + 1 && b'.arrived == b.arrived[g := b.arrived[g] + {t}]
            && b'.returned == b.returned && b'.maxCount == b.maxCount && t in b'.pc
            && (if b.currentCount + 1 == b.maxCount then actions[n] == Broadcast(l, 0) && b'.pc[t] == Resetting(g)
                else actions[n] == Wait(l, 0) && b'.pc[t] == Asleep(g))
  {
    hide Run, BarrierStep, Enabled, EventOf;
    MoverPlays(states, actions, l, bs, n, t);
    EventAction(states[n], actions[n], l);
  }

  /** A thread that returns gives the lock up; the one that woke the others sets the counter to 0 first, and
      the next generation starts with nobody in it. */
  lemma ReturnResets(states: seq<Kernel>, actions: seq<Action>, l: nat, bs: seq<Barrier>, n: nat, t: Tid)
    requires BarrierRun(states, actions, l, bs) && n < |actions| && t in bs[n].pc && t !in bs[n + 1].pc
    ensures actions[n] == Release(l) && (bs[n].pc[t].Leaving? || bs[n].pc[t].Resetting?)
    ensures var (b, b', g) := (bs[n], bs[n + 1], bs[n].pc[t].g);
            && g < |b.returned| && b'.maxCount == b.maxCount
            && (b.pc[t].Leaving? ==>
                  (b'.currentCount, b'.arrived) == (b.currentCount, b.arrived)
                  && b'.returned == b.returned[g := b.returned[g] + {t}])
            && (b.pc[t].Resetting? ==>
                  b'.currentCount == 0 && b'.arrived == b.arrived + [{}]
                  && b'.returned == b.returned[g := b.returned[g] + {t}] + [{}])
  {
    hide Run, BarrierStep, Enabled, EventOf;
    MoverPlays(states, actions, l, bs, n, t);
    EventAction(states[n], actions[n], l);
  }

  ghost predicate SomeoneMoves(b: Barrier, b': Barrier) {
    exists t :: Moves(b, b', t) && !b.pc[t].Asleep?
  }

  predicate SameRecords(b: Barrier, b': Barrier) {
    b'.currentCount == b.currentCount && b'.arrived == b.arrived && b'.returned == b.returned
  }

  /** The counter and the records change only as somebody arrives or returns. */
  lemma OnlyCallsCount(states: seq<Kernel>, actions: seq<Action>, l: nat, bs: seq<Barrier>, n: nat)
    requires BarrierRun(states, actions, l, bs) && n < |actions|
    ensures !SameRecords(bs[n], bs[n + 1]) ==> SomeoneMoves(bs[n], bs[n + 1])
    ensures bs[n + 1].maxCount == bs[n].maxCount
  {
    hide Run, Enabled, EventOf;
    assert BarrierStep(states[n], actions[n], l, bs[n], bs[n + 1]);
    var e := EventOf(states[n], actions[n], l);
    if e != Elsewhere && e.t in bs[n].pc { assert Moves(bs[n], bs[n + 1], e.t); }
  }
}
