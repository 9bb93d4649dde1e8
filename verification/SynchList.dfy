/** The synchronised list (threads/synchlist.h): a queue under a lock, with a condition to wait on
    while it is empty. */
module SynchLists {
  import opened Kernels
  import opened KernelOrder
  import opened KernelSafety
  import opened Monitors

  /** Where a thread is in Append or Remove: with the lock and an item to append, with the lock and
      about to test for emptiness, for the first time or after a Wait, waiting, or about to Release. */
  datatype Pc<T> = Appending(item: T) | Testing | Retesting | Asleep | Done

  /** The list, the threads inside, and everything ever appended and removed, in order. */
  datatype SynchList<T> = SynchList(list: seq<T>, pc: map<Tid, Pc<T>>, appended: seq<T>, removed: seq<T>)

  function Move<T>(s: SynchList<T>, t: Tid, pc: Pc<T>): SynchList<T> {
    s.(pc := s.pc[t := pc])
  }

  function Out<T>(s: SynchList<T>, t: Tid): SynchList<T> {
    s.(pc := s.pc - {t})
  }

  /** The next event of a thread inside, and what the list has become by then. The plain code
      between two kernel calls belongs to the second of them. */
  function Program<T>(s: SynchList<T>, t: Tid): (Event, SynchList<T>)
    requires t in s.pc
  {
    match s.pc[t]
    case Appending(item) =>
      (Notify(t, 0), Move(s.(list := s.list + [item], appended := s.appended + [item]), t, Done))
    case Testing => Test(s, t)
    case Retesting => Test(s, t)
    case Asleep => (Grant(t), Move(s, t, Retesting))
    case Done => (Leave(t), Out(s, t))
  }

  /** The loop of Remove: wait while the list is empty, else take its first item and leave. */
  function Test<T>(s: SynchList<T>, t: Tid): (Event, SynchList<T>) {
    if s.list == [] then (Suspend(t, 0), Move(s, t, Asleep))
    else (Leave(t), Out(s.(list := s.list[1..], removed := s.removed + [s.list[0]]), t))
  }

  /** A thread that gets the lock from outside has called Append or Remove. */
  ghost predicate Called<T>(s: SynchList<T>, t: Tid, s': SynchList<T>) {
    t in s'.pc && (s'.pc[t].Appending? || s'.pc[t].Testing?) && s' == Move(s, t, s'.pc[t])
  }

  ghost predicate Step<T>(s: SynchList<T>, e: Event, s': SynchList<T>) {
    if e == Elsewhere then s' == s
    else if e.t !in s.pc then e == Grant(e.t) && Called(s, e.t, s')
    else Program(s, e.t) == (e, s')
  }

  /** Any thread outside may call Append, with any item, or Remove, as it gets the lock. */
  lemma MayCall<T>(s: SynchList<T>, t: Tid, item: T)
    ensures t !in s.pc ==> Step(s, Grant(t), s.(pc := s.pc[t := Appending(item)]))
    ensures t !in s.pc ==> Step(s, Grant(t), s.(pc := s.pc[t := Testing]))
  {
  }

  // ---- The invariant ----

  /** Woken out of the Wait of Remove, and yet to test the list again. */
  predicate Rechecks<T>(s: SynchList<T>, queue: seq<Tid>, t: Tid) {
    t in s.pc && (s.pc[t].Retesting? || (s.pc[t].Asleep? && t !in queue))
  }

  ghost function Recheckers<T>(s: SynchList<T>, queue: seq<Tid>): set<Tid> {
    set t | t in s.pc && Rechecks(s, queue, t)
  }

  ghost predicate Inv<T>(m: Monitor, s: SynchList<T>) {
    && |m.conditions| >= 1
    && s.removed + s.list == s.appended
    && NoDuplicates(m.conditions[0])
    && (forall t :: t in m.conditions[0] ==> t in s.pc && s.pc[t].Asleep?)
    && (forall t :: t in s.pc ==> (!s.pc[t].Asleep? <==> m.owner == Some(t)))
    && (m.owner.Some? ==> m.owner.value in s.pc)
    && (m.conditions[0] != [] ==> |s.list| <= |Recheckers(s, m.conditions[0])|)
  }

  lemma Grows(a: set<Tid>, b: set<Tid>, t: Tid)
    requires t !in a && b == a + {t}
    ensures |b| == |a| + 1
  {
  }

  /** Append and Signal together: one more item, and one more thread on its way to it. */
  lemma AppendKeepsInv<T>(m: Monitor, s: SynchList<T>, t: Tid)
    requires Inv(m, s) && t in s.pc && s.pc[t].Appending? && CanHappen(m, Notify(t, 0))
    ensures Inv(After(m, Notify(t, 0)), Program(s, t).1)
  {
    var q, q', s' := m.conditions[0], Tail(m.conditions[0]), Program(s, t).1;
    assert s'.removed + s'.list == s'.appended by {
      assert s.removed + (s.list + [s.pc[t].item]) == (s.removed + s.list) + [s.pc[t].item];
    }
    if q != [] {
      assert q[0] in q;
      assert q == [q[0]] + q';
      Grows(Recheckers(s, q), Recheckers(s', q'), q[0]);
    }
  }

  /** Remove finds the list empty and waits. */
  lemma EmptyKeepsInv<T>(m: Monitor, s: SynchList<T>, t: Tid)
    requires Inv(m, s) && t in s.pc && (s.pc[t].Testing? || s.pc[t].Retesting?)
    requires s.list == [] && CanHappen(m, Suspend(t, 0))
    ensures Inv(After(m, Suspend(t, 0)), Move(s, t, Asleep))
  {
    assert t !in m.conditions[0];
  }

  /** A thread that leaves after its test is not on its way to an item any more. */
  lemma RecheckersOut<T>(s: SynchList<T>, s': SynchList<T>, q: seq<Tid>, t: Tid)
    requires t in s.pc && (s.pc[t].Testing? || s.pc[t].Retesting?) && s'.pc == s.pc - {t}
    ensures |Recheckers(s, q)| == |Recheckers(s', q)| + (if s.pc[t].Retesting? then 1 else 0)
  {
    if s.pc[t].Retesting? {
      Grows(Recheckers(s', q), Recheckers(s, q), t);
    } else {
      assert Recheckers(s', q) == Recheckers(s, q);
    }
  }

  lemma HeadMoves<T>(removed: seq<T>, list: seq<T>)
    requires list != []
    ensures (removed + [list[0]]) + list[1..] == removed + list
  {
  }

  /** Remove takes the first item. */
  lemma TakeKeepsInv<T>(m: Monitor, s: SynchList<T>, t: Tid)
    requires Inv(m, s) && t in s.pc && (s.pc[t].Testing? || s.pc[t].Retesting?)
    requires s.list != [] && CanHappen(m, Leave(t))
    ensures Inv(After(m, Leave(t)), Out(s.(list := s.list[1..], removed := s.removed + [s.list[0]]), t))
  {
    hide Recheckers, NoDuplicates;
    HeadMoves(s.removed, s.list);
    RecheckersOut(s, Out(s.(list := s.list[1..], removed := s.removed + [s.list[0]]), t), m.conditions[0], t);
  }

  lemma TestKeepsInv<T>(m: Monitor, s: SynchList<T>, t: Tid)
    requires Inv(m, s) && t in s.pc && (s.pc[t].Testing? || s.pc[t].Retesting?) && CanHappen(m, Test(s, t).0)
    ensures Inv(After(m, Test(s, t).0), Test(s, t).1)
  {
    hide Inv, After, CanHappen;
    if s.list == [] { EmptyKeepsInv(m, s, t); } else { TakeKeepsInv(m, s, t); }
  }

  lemma StepKeepsInv<T>(m: Monitor, s: SynchList<T>, e: Event, s': SynchList<T>)
    requires Inv(m, s) && CanHappen(m, e) && Step(s, e, s')
    ensures Inv(After(m, e), s')
  {
    if e != Elsewhere {
      var q := m.conditions[0];
      if e.t in s.pc && s.pc[e.t].Appending? {
        AppendKeepsInv(m, s, e.t);
      } else if e.t in s.pc && (s.pc[e.t].Testing? || s.pc[e.t].Retesting?) {
        TestKeepsInv(m, s, e.t);
      } else {
        assert e.Grant? ==> e.t !in q;
        assert Recheckers(s', q) == Recheckers(s, q);
      }
    }
  }

  // ---- Every run ----

  /** A run of the kernel in which lock `l` and its condition belong to a list, empty at first. */
  ghost predicate ListRun<T>(states: seq<Kernel>, actions: seq<Action>, l: nat, ls: seq<SynchList<T>>) {
    && Run(states, actions) && l < |states[0].locks| && |states[0].locks[l].conditions| >= 1
    && |ls| == |states| == |actions| + 1 && ls[0] == SynchList([], map[], [], [])
    && forall n :: 0 <= n < |actions| ==> ListStep(states[n], actions[n], l, ls[n], ls[n + 1])
  }

  ghost predicate ListStep<T>(k: Kernel, a: Action, l: nat, s: SynchList<T>, s': SynchList<T>) {
    l < |k.locks| && Enabled(k, a) && Step(s, EventOf(k, a, l), s')
  }

  lemma {:induction false} RunKeepsList<T>(states: seq<Kernel>, actions: seq<Action>, l: nat, ls: seq<SynchList<T>>,
                                           n: nat)
    requires ListRun(states, actions, l, ls) && n < |states|
    ensures l < |states[n].locks| && Inv(View(states[n], l), ls[n])
  {
    hide Inv, Step, EventOf, CanHappen, After, Enabled, Run;
    if n == 0 {
      FirstState<T>(states, actions, l);
    } else {
      RunKeepsList(states, actions, l, ls, n - 1);
      assert ListStep(states[n - 1], actions[n - 1], l, ls[n - 1], ls[n]);
      MonitorStep(states, actions, l, n - 1);
      StepKeepsInv(View(states[n - 1], l), ls[n - 1], EventOf(states[n - 1], actions[n - 1], l), ls[n]);
    }
  }

  lemma FirstState<T>(states: seq<Kernel>, actions: seq<Action>, l: nat)
    requires Run(states, actions) && l < |states[0].locks| && |states[0].locks[l].conditions| >= 1
    ensures Inv<T>(View(states[0], l), SynchList([], map[], [], []))
  {
    NobodyWaits(states[0], l);
    NoQueues(View(states[0], l));
  }

  /** In every state of every run: what was removed, in order, followed by the list, is what was
      appended, in order; and while the lock is free and some consumer sleeps, every item has a
      woken consumer on its way to it. */
  lemma FifoQueue<T>(states: seq<Kernel>, actions: seq<Action>, l: nat, ls: seq<SynchList<T>>, n: nat)
    requires ListRun(states, actions, l, ls) && n < |states|
    ensures ls[n].removed + ls[n].list == ls[n].appended
    ensures l < |states[n].locks| && |states[n].locks[l].conditions| >= 1
    ensures states[n].locks[l].owner == None && states[n].locks[l].conditions[0] != [] ==>
              |ls[n].list| <= |set t | t in ls[n].pc && ls[n].pc[t].Asleep? && t !in states[n].locks[l].conditions[0]|
  {
    hide Run, ListStep;
    RunKeepsList(states, actions, l, ls, n);
    var s, q := ls[n], states[n].locks[l].conditions[0];
    if states[n].locks[l].owner == None {
      assert Recheckers(s, q) == set t | t in s.pc && s.pc[t].Asleep? && t !in q;
    }
  }

  /** A step of a thread that is inside with an item to append puts this item at the end of the list. */
  lemma AppendAppends<T>(states: seq<Kernel>, actions: seq<Action>, l: nat, ls: seq<SynchList<T>>, n: nat, t: Tid)
    requires ListRun(states, actions, l, ls) && n < |actions| && t in ls[n].pc && ls[n].pc[t].Appending?
    requires t !in ls[n + 1].pc || ls[n + 1].pc[t] != ls[n].pc[t]
    ensures ls[n + 1].list == ls[n].list + [ls[n].pc[t].item]
    ensures ls[n + 1].appended == ls[n].appended + [ls[n].pc[t].item] && ls[n + 1].removed == ls[n].removed
    ensures Appends(ls[n], ls[n + 1], t) && actions[n] == Signal(l, 0) && states[n].running == Some(t)
  {
    hide Run;
    assert ListStep(states[n], actions[n], l, ls[n], ls[n + 1]);
  }

  /** A step of a thread that tests the list takes its first item and gives the lock up, or, with the list
      empty, waits on the condition and changes nothing. */
  lemma RemoveTakesOrWaits<T>(states: seq<Kernel>, actions: seq<Action>, l: nat, ls: seq<SynchList<T>>, n: nat, t: Tid)
    requires ListRun(states, actions, l, ls) && n < |actions|
    requires t in ls[n].pc && (ls[n].pc[t].Testing? || ls[n].pc[t].Retesting?)
    requires t !in ls[n + 1].pc || ls[n + 1].pc[t] != ls[n].pc[t]
    ensures states[n].running == Some(t)
    ensures ls[n].list != [] ==>
              && t !in ls[n + 1].pc && actions[n] == Release(l) && ls[n + 1].list == ls[n].list[1..]
              && ls[n + 1].removed == ls[n].removed + [ls[n].list[0]] && ls[n + 1].appended == ls[n].appended
    ensures ls[n].list == [] ==>
              && t in ls[n + 1].pc && ls[n + 1].pc[t] == Asleep && actions[n] == Wait(l, 0)
              && (ls[n + 1].list, ls[n + 1].removed, ls[n + 1].appended) == (ls[n].list, ls[n].removed, ls[n].appended)
  {
    hide Run;
    assert ListStep(states[n], actions[n], l, ls[n], ls[n + 1]);
  }

  /** An Append of thread `t` put its item in, at the end of the list and of the record. */
  ghost predicate Appends<T>(s: SynchList<T>, s': SynchList<T>, t: Tid) {
    && t in s.pc && s.pc[t].Appending? && t in s'.pc && s'.pc[t] == Done
    && s'.list == s.list + [s.pc[t].item] && s'.appended == s.appended + [s.pc[t].item] && s'.removed == s.removed
  }

  /** The thread has come to the end of a Remove that delivered. */
  ghost predicate Delivers<T>(s: SynchList<T>, s': SynchList<T>, t: Tid) {
    t in s.pc && (s.pc[t].Testing? || s.pc[t].Retesting?) && t !in s'.pc
  }

  ghost predicate SomeoneAppends<T>(s: SynchList<T>, s': SynchList<T>) {
    exists t :: Appends(s, s', t)
  }

  ghost predicate SomeoneRemoves<T>(s: SynchList<T>, s': SynchList<T>) {
    exists t :: Delivers(s, s', t)
  }

  /** No other step changes the list: it grows only by an Append and shrinks only by a Remove that returns,
      which takes the first item; and a record grows only with the list, or as the list shrinks. */
  lemma OnlyCallsChange<T>(states: seq<Kernel>, actions: seq<Action>, l: nat, ls: seq<SynchList<T>>, n: nat)
    requires ListRun(states, actions, l, ls) && n < |actions|
    ensures ls[n + 1].appended != ls[n].appended ==>
              SomeoneAppends(ls[n], ls[n + 1])
    ensures ls[n + 1].removed != ls[n].removed ==>
              ls[n].list != [] && ls[n + 1].removed == ls[n].removed + [ls[n].list[0]]
              && ls[n + 1].list == ls[n].list[1..] && SomeoneRemoves(ls[n], ls[n + 1])
    ensures ls[n + 1].appended == ls[n].appended && ls[n + 1].removed == ls[n].removed ==> ls[n + 1].list == ls[n].list
  {
    hide Run, EventOf;
    assert ListStep(states[n], actions[n], l, ls[n], ls[n + 1]);
    var e := EventOf(states[n], actions[n], l);
    if ls[n + 1].removed != ls[n].removed { assert Delivers(ls[n], ls[n + 1], e.t); }
    RecordsGrow(ls[n], ls[n + 1], e);
  }

  lemma RecordsGrow<T>(s: SynchList<T>, s': SynchList<T>, e: Event)
    requires Step(s, e, s')
    ensures s'.appended != s.appended ==>
              e != Elsewhere && Appends(s, s', e.t)
    ensures s'.appended == s.appended && s'.removed == s.removed ==> s'.list == s.list
  {
    if e != Elsewhere && e.t in s.pc {
      Longer(s.appended, s.appended + (if s.pc[e.t].Appending? then [s.pc[e.t].item] else []));
      Longer(s.removed, s.removed + (if s.list != [] then [s.list[0]] else []));
    }
  }

  lemma Longer<T>(s: seq<T>, r: seq<T>)
    ensures |s| < |r| ==> s != r
  {
  }

  /** A call of Remove delivers the next item in order, never from an empty list. */
  lemma RemoveDelivers<T>(states: seq<Kernel>, actions: seq<Action>, l: nat, ls: seq<SynchList<T>>, n: nat, t: Tid)
    requires ListRun(states, actions, l, ls) && n < |actions|
    requires t in ls[n].pc && t !in ls[n + 1].pc && ls[n].pc[t] != Done
    ensures ls[n].list != [] && |ls[n].removed| < |ls[n].appended|
    ensures ls[n + 1].removed == ls[n].removed + [ls[n].appended[|ls[n].removed|]]
  {
    hide Run, EventOf;
    RunKeepsList(states, actions, l, ls, n);
    assert ListStep(states[n], actions[n], l, ls[n], ls[n + 1]);
  }
}
