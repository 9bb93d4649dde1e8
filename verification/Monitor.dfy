/** A lock and its conditions without the scheduler: who owns the lock, and who waits where. Every
    run of the kernel is a run of this, so what holds here holds of programs on the kernel. */
module Monitors {
  import opened Kernels
  import opened KernelSafety
  import opened KernelOrder

  datatype Monitor = Monitor(owner: Option<Tid>, conditions: seq<seq<Tid>>)

  datatype Event =
    | Grant(t: Tid)              // Acquire or Wait returns to `t`
    | Leave(t: Tid)              // Release
    | Suspend(t: Tid, c: nat)    // Wait, up to its Sleep
    | Notify(t: Tid, c: nat)     // Signal
    | NotifyAll(t: Tid, c: nat)  // Broadcast
    | Elsewhere

  /** Thread `t` sleeps on some condition. */
  predicate Waits(m: Monitor, t: Tid) {
    exists c :: 0 <= c < |m.conditions| && t in m.conditions[c]
  }

  predicate CanHappen(m: Monitor, e: Event) {
    match e
    case Grant(t) => m.owner == None && !Waits(m, t)
    case Leave(t) => m.owner == Some(t)
    case Suspend(t, c) => m.owner == Some(t) && c < |m.conditions|
    case Notify(t, c) => m.owner == Some(t) && c < |m.conditions|
    case NotifyAll(t, c) => m.owner == Some(t) && c < |m.conditions|
    case Elsewhere => true
  }

  function After(m: Monitor, e: Event): (m': Monitor)
    requires CanHappen(m, e)
    ensures |m'.conditions| == |m.conditions|
  {
    match e
    case Grant(t) => m.(owner := Some(t))
    case Leave(t) => m.(owner := None)
    case Suspend(t, c) => Monitor(None, m.conditions[c := m.conditions[c] + [t]])
    case Notify(t, c) => m.(conditions := m.conditions[c := Tail(m.conditions[c])])
    case NotifyAll(t, c) => m.(conditions := m.conditions[c := []])
    case Elsewhere => m
  }

  // ---- The kernel refines it ----

  function View(k: Kernel, l: nat): Monitor
    requires l < |k.locks|
  {
    Monitor(k.locks[l].owner, k.locks[l].conditions)
  }

  function EventOf(k: Kernel, a: Action, l: nat): Event
    requires Enabled(k, a) && l < |k.locks|
  {
    if TestsLock(k, a, l) && k.locks[l].semaphore.value != 0 then Grant(k.running.value)
    else if a == Release(l) then Leave(k.running.value)
    else if a.Wait? && a.l == l then Suspend(k.running.value, a.c)
    else if a.Signal? && a.l == l then Notify(k.running.value, a.c)
    else if a.Broadcast? && a.l == l then NotifyAll(k.running.value, a.c)
    else Elsewhere
  }

  /** What happens at a lock is done by the thread that has the processor. */
  lemma EventIsRunners(k: Kernel, a: Action, l: nat)
    requires Enabled(k, a) && l < |k.locks| && EventOf(k, a, l) != Elsewhere
    ensures k.running == Some(EventOf(k, a, l).t)
  {
  }

  /** The action behind what happens at a lock. */
  lemma EventAction(k: Kernel, a: Action, l: nat)
    requires Enabled(k, a) && l < |k.locks|
    ensures var e := EventOf(k, a, l);
            && (e.Leave? ==> a == Release(l)) && (e.Suspend? ==> a == Wait(l, e.c))
            && (e.Notify? ==> a == Signal(l, e.c)) && (e.NotifyAll? ==> a == Broadcast(l, e.c))
  {
  }

  lemma EventCanHappen(k: Kernel, a: Action, l: nat)
    requires Inv(k) && Enabled(k, a) && l < |k.locks|
    ensures CanHappen(View(k, l), EventOf(k, a, l))
  {
    hide SemaphoresOk, ModesOk;
    assert LockOk(k.locks[l]);
    if EventOf(k, a, l).Grant? && Waits(View(k, l), k.running.value) {
      var c :| 0 <= c < |k.locks[l].conditions| && k.running.value in k.locks[l].conditions[c];
      AtPlace(k, OnCpu, k.running.value);
      AtPlace(k, OnCondition(l, c), k.running.value);
      assert false;
    }
  }

  lemma QueuesView(k: Kernel, k': Kernel, l: nat, conditions: seq<seq<Tid>>)
    requires l < |k.locks| && SameShape(k, k') && |conditions| == |k.locks[l].conditions|
    requires forall c :: 0 <= c < |conditions| ==> QueueAt(k', OnCondition(l, c)) == conditions[c]
    ensures View(k', l).conditions == conditions
  {
    forall c | 0 <= c < |conditions|
      ensures k'.locks[l].conditions[c] == conditions[c]
    {
      assert QueueAt(k', OnCondition(l, c)) == conditions[c];
    }
  }

  lemma QueueRefines(k: Kernel, a: Action, l: nat, c: nat)
    requires Enabled(k, a) && l < |k.locks| && c < |k.locks[l].conditions| && CanHappen(View(k, l), EventOf(k, a, l))
    ensures QueueAfterStep(k, a, OnCondition(l, c)) == After(View(k, l), EventOf(k, a, l)).conditions[c]
  {
    hide Waits;
  }

  lemma ConditionsRefine(k: Kernel, a: Action, l: nat)
    requires Enabled(k, a) && l < |k.locks| && CanHappen(View(k, l), EventOf(k, a, l))
    ensures View(Next(k, a), l).conditions == After(View(k, l), EventOf(k, a, l)).conditions
  {
    hide Next, Enabled, EventOf, CanHappen, After, QueueAfterStep;
    var conditions := After(View(k, l), EventOf(k, a, l)).conditions;
    forall c | 0 <= c < |conditions|
      ensures QueueAt(Next(k, a), OnCondition(l, c)) == conditions[c]
    {
      WaitingAfterStep(k, a, OnCondition(l, c));
      QueueRefines(k, a, l, c);
    }
    QueuesView(k, Next(k, a), l, conditions);
  }

  lemma TakeLockOwner(k: Kernel, m: nat, l: nat)
    requires m < |k.locks| && k.running.Some? && l < |k.locks|
    ensures TakeLock(k, m).locks[l].owner ==
            if m == l && k.locks[l].semaphore.value != 0 then k.running else k.locks[l].owner
  {
    hide Down;
  }

  lemma ReleaseOwner(k: Kernel, m: nat, l: nat)
    requires m < |k.locks| && l < |k.locks|
    ensures ReleaseLock(k, m).locks[l].owner == if m == l then None else k.locks[l].owner
  {
    hide Up;
  }

  lemma WaitOwner(k: Kernel, m: nat, c: nat, l: nat)
    requires Holds(k, m) && c < |k.locks[m].conditions| && l < |k.locks|
    ensures WaitOn(k, m, c).locks[l].owner == if m == l then None else k.locks[l].owner
  {
    hide Block, ReleaseLock;
    ReleaseOwner(k, m, l);
  }

  lemma ResumeOwner(k: Kernel, l: nat)
    requires Enabled(k, Resume) && l < |k.locks| && CanHappen(View(k, l), EventOf(k, Resume, l))
    ensures Next(k, Resume).locks[l].owner == After(View(k, l), EventOf(k, Resume, l)).owner
  {
    hide Down, TakeLock, Waits;
    match ThreadAt(k, k.running.value).mode
    case InP(s) =>
    case InAcquire(m) => TakeLockOwner(k, m, l);
    case InWait(m, c) => TakeLockOwner(k, m, l);
  }

  /** No other step changes the owner of a lock. */
  lemma OwnerStays(k: Kernel, a: Action, l: nat)
    requires Enabled(k, a) && l < |k.locks| && !a.Acquire? && !a.Release? && !a.Wait? && !a.Resume?
    ensures Next(k, a).locks[l].owner == k.locks[l].owner
  {
    hide Down, Up, Wake, WakeAll, Reschedule, Dispatch, YieldCpu, Take, Put;
  }

  /** Which thread owns a lock after a step. */
  lemma OwnerRefines(k: Kernel, a: Action, l: nat)
    requires Enabled(k, a) && l < |k.locks| && CanHappen(View(k, l), EventOf(k, a, l))
    ensures Next(k, a).locks[l].owner == After(View(k, l), EventOf(k, a, l)).owner
  {
    hide TakeLock, ReleaseLock, WaitOn, Waits, Continue, Down, Up, Wake, WakeAll, Reschedule, Dispatch, YieldCpu, Take,
      Put;
    match a
    case Acquire(m) => TakeLockOwner(k, m, l);
    case Release(m) => ReleaseOwner(k, m, l);
    case Wait(m, c) => WaitOwner(k, m, c, l);
    case Resume => ResumeOwner(k, l);
    case _ => OwnerStays(k, a, l);
  }

  /** Every step of the kernel is an event of each monitor. */
  lemma KernelRefinesMonitor(k: Kernel, a: Action, l: nat)
    requires Inv(k) && Enabled(k, a) && l < |k.locks|
    ensures CanHappen(View(k, l), EventOf(k, a, l))
    ensures View(Next(k, a), l) == After(View(k, l), EventOf(k, a, l))
  {
    hide Next, Enabled, EventOf, CanHappen, After, Inv;
    EventCanHappen(k, a, l);
    ConditionsRefine(k, a, l);
    OwnerRefines(k, a, l);
  }

  /** The lock number `l` exists from the start. */
  lemma {:induction false} LocksStay(states: seq<Kernel>, actions: seq<Action>, n: nat)
    requires Run(states, actions) && n < |states|
    ensures |states[n].locks| == |states[0].locks|
  {
    hide Initial, Enabled;
    if n > 0 { LocksStay(states, actions, n - 1); }
  }

  /** A run of the kernel, seen through one lock, is a run of its monitor from a free lock with nobody
      waiting. */
  lemma RunRefinesMonitor(states: seq<Kernel>, actions: seq<Action>, l: nat, n: nat)
    requires Run(states, actions) && n < |actions| && l < |states[0].locks|
    ensures |states[n].locks| == |states[n + 1].locks| == |states[0].locks| && Enabled(states[n], actions[n])
    ensures CanHappen(View(states[n], l), EventOf(states[n], actions[n], l))
    ensures View(states[n + 1], l) == After(View(states[n], l), EventOf(states[n], actions[n], l))
    ensures View(states[0], l).owner == None && forall t :: !Waits(View(states[0], l), t)
  {
    hide Inv, Next, EventOf, CanHappen, After, Enabled;
    LocksStay(states, actions, n);
    LocksStay(states, actions, n + 1);
    RunKeepsInv(states, actions, n);
    KernelRefinesMonitor(states[n], actions[n], l);
    NobodyWaits(states[0], l);
  }

  /** The same, step by step. */
  lemma MonitorStep(states: seq<Kernel>, actions: seq<Action>, l: nat, n: nat)
    requires Run(states, actions) && n < |actions| && l < |states[n].locks|
    ensures Enabled(states[n], actions[n]) && l < |states[n + 1].locks|
    ensures CanHappen(View(states[n], l), EventOf(states[n], actions[n], l))
    ensures View(states[n + 1], l) == After(View(states[n], l), EventOf(states[n], actions[n], l))
  {
    hide Inv, Next, EventOf, CanHappen, After, Enabled;
    RunKeepsInv(states, actions, n);
    KernelRefinesMonitor(states[n], actions[n], l);
  }

  lemma NoQueues(m: Monitor)
    requires forall t :: !Waits(m, t)
    ensures forall c :: 0 <= c < |m.conditions| ==> m.conditions[c] == []
  {
    forall c | 0 <= c < |m.conditions|
      ensures m.conditions[c] == []
    {
      if m.conditions[c] != [] {
        assert m.conditions[c][0] in m.conditions[c];
        assert Waits(m, m.conditions[c][0]);
      }
    }
  }

  lemma NobodyWaits(k: Kernel, l: nat)
    requires Initial(k) && l < |k.locks|
    ensures View(k, l).owner == None && forall t :: !Waits(View(k, l), t)
  {
    forall c | 0 <= c < |k.locks[l].conditions|
      ensures k.locks[l].conditions[c] == []
    {
      assert QueueAt(k, OnCondition(l, c)) == k.locks[l].conditions[c];
    }
  }

  // ---- One semaphore ----

  /** What happens at a semaphore: a thread's test of the value fails or succeeds, or a V comes. */
  datatype SemaphoreEvent = Slept(t: Tid) | Passed(t: Tid) | Raised | Quiet

  function SemaphoreEventOf(k: Kernel, a: Action, s: nat): SemaphoreEvent
    requires Enabled(k, a) && s < |k.semaphores|
  {
    if TestsSemaphore(k, a, s) then
      (if k.semaphores[s].value == 0 then Slept(k.running.value) else Passed(k.running.value))
    else if a == V(s) || a == HandlerV(s) then Raised
    else Quiet
  }

  function ValueAfter(value: int, e: SemaphoreEvent): int {
    match e
    case Slept(t) => value
    case Passed(t) => value - 1
    case Raised => value + 1
    case Quiet => value
  }

  lemma UpValue(k: Kernel, p: Place, s: nat)
    requires IsSemaphore(k, p) && s < |k.semaphores|
    ensures Up(k, p).semaphores[s].value == k.semaphores[s].value + (if p == OnSemaphore(s) then 1 else 0)
  {
    hide Wake, SameOwners;
  }

  lemma DownValue(k: Kernel, p: Place, s: nat)
    requires IsSemaphore(k, p) && k.running.Some? && s < |k.semaphores|
    ensures Down(k, p).semaphores[s].value ==
            k.semaphores[s].value - (if p == OnSemaphore(s) && k.semaphores[s].value != 0 then 1 else 0)
  {
    hide Block, SameOwners;
  }

  lemma WaitValue(k: Kernel, l: nat, c: nat, s: nat)
    requires Holds(k, l) && c < |k.locks[l].conditions| && s < |k.semaphores|
    ensures WaitOn(k, l, c).semaphores[s].value == k.semaphores[s].value
  {
    hide Up, Block, SameOwners;
    UpValue(WithOwner(k, l, None), OnLock(l), s);
  }

  lemma TestValue(k: Kernel, a: Action, s: nat)
    requires Enabled(k, a) && (a == Resume || a.P? || a.Acquire?) && s < |k.semaphores|
    ensures Next(k, a).semaphores[s].value == ValueAfter(k.semaphores[s].value, SemaphoreEventOf(k, a, s))
  {
    hide Down, SameOwners;
    match a
    case P(r) => DownValue(k, OnSemaphore(r), s);
    case Acquire(l) => DownValue(k, OnLock(l), s);
    case Resume =>
      match ThreadAt(k, k.running.value).mode {
        case InP(r) => DownValue(k, OnSemaphore(r), s);
        case InAcquire(l) => DownValue(k, OnLock(l), s);
        case InWait(l, c) => DownValue(k, OnLock(l), s);
      }
  }

  lemma RaiseValue(k: Kernel, a: Action, s: nat)
    requires Enabled(k, a) && (a.V? || a.HandlerV? || a.Release? || a.Wait?) && s < |k.semaphores|
    ensures Next(k, a).semaphores[s].value == ValueAfter(k.semaphores[s].value, SemaphoreEventOf(k, a, s))
  {
    hide Up, WaitOn, SameOwners;
    match a
    case V(r) => UpValue(k, OnSemaphore(r), s);
    case HandlerV(r) => UpValue(k, OnSemaphore(r), s);
    case Release(l) => UpValue(WithOwner(k, l, None), OnLock(l), s);
    case Wait(l, c) => WaitValue(k, l, c, s);
  }

  lemma OtherValue(k: Kernel, a: Action, s: nat)
    requires Enabled(k, a) && s < |k.semaphores|
    requires a.Signal? || a.Broadcast? || a.Yield? || a.Fork? || a.Finish? || a.Wakeup?
    ensures Next(k, a).semaphores[s].value == ValueAfter(k.semaphores[s].value, SemaphoreEventOf(k, a, s))
  {
    hide Wake, WakeAll, Reschedule, Dispatch, YieldCpu, Take, Put, SameOwners;
  }

  /** Every step of the kernel is an event of each semaphore; a test passes only on a positive value. */
  lemma KernelRefinesSemaphore(k: Kernel, a: Action, s: nat)
    requires Inv(k) && Enabled(k, a) && s < |k.semaphores|
    ensures s < |Next(k, a).semaphores|
    ensures Next(k, a).semaphores[s].value == ValueAfter(k.semaphores[s].value, SemaphoreEventOf(k, a, s))
    ensures SemaphoreEventOf(k, a, s).Slept? ==> k.semaphores[s].value == 0
    ensures SemaphoreEventOf(k, a, s).Passed? ==> k.semaphores[s].value > 0
  {
    hide Next, Inv, Enabled, SemaphoreEventOf, ValueAfter;
    PositivePasses(k, a, s);
    if a.V? || a.HandlerV? || a.Release? || a.Wait? {
      RaiseValue(k, a, s);
    } else if a == Resume || a.P? || a.Acquire? {
      TestValue(k, a, s);
    } else {
      OtherValue(k, a, s);
    }
  }

  lemma PositivePasses(k: Kernel, a: Action, s: nat)
    requires Inv(k) && Enabled(k, a) && s < |k.semaphores|
    ensures SemaphoreEventOf(k, a, s).Slept? ==> k.semaphores[s].value == 0
    ensures SemaphoreEventOf(k, a, s).Passed? ==> k.semaphores[s].value > 0
  {
    assert IsSemaphore(k, OnSemaphore(s)) && SemaphoreOk(k, OnSemaphore(s));
  }

  lemma SemaphoreStep(states: seq<Kernel>, actions: seq<Action>, s: nat, n: nat)
    requires Run(states, actions) && n < |actions| && s < |states[n].semaphores|
    ensures Enabled(states[n], actions[n]) && s < |states[n + 1].semaphores|
    ensures var k, e := states[n], SemaphoreEventOf(states[n], actions[n], s);
            && states[n + 1].semaphores[s].value == ValueAfter(k.semaphores[s].value, e)
            && (e.Slept? ==> k.semaphores[s].value == 0) && (e.Passed? ==> k.semaphores[s].value > 0)
  {
    hide Inv, Next, SemaphoreEventOf, ValueAfter, Enabled;
    RunKeepsInv(states, actions, n);
    KernelRefinesSemaphore(states[n], actions[n], s);
  }
}
