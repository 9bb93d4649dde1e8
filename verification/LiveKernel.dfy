/** The kernel's objects as they are updated in place (threads/scheduler.cc, thread.cc and synch.cc):
    each method is the code between two switches of threads, and is proved to be the step of the
    same name. */
module LiveKernels {
  import opened Kernels
  import opened KernelSafety

  class LiveKernel {
    var threads: map<Tid, Thread>
    var currentThread: Option<Tid>
    var readyList: seq<Tid>
    var semaphores: seq<Semaphore>
    var locks: seq<Lock>

    ghost function State(): Kernel
      reads this
    {
      Kernel(threads, currentThread, readyList, semaphores, locks)
    }

    // ---- Scheduler ----

    method ReadyToRun(t: Tid)
      requires t in threads
      modifies this`threads, this`readyList
      ensures State() == Put(old(State()), t, old(threads)[t].(status := READY))
      ensures readyList == old(readyList) + [t] && threads == old(threads)[t := old(threads)[t].(status := READY)]
    {
      threads := threads[t := threads[t].(status := READY)];
      readyList := readyList + [t];
    }

    method FindNextToRun() returns (next: Option<Tid>)
      modifies this`readyList
      ensures next == if old(readyList) == [] then None else Some(old(readyList)[0])
      ensures readyList == if old(readyList) == [] then [] else old(readyList)[1..]
    {
      if readyList == [] {
        return None;
      }
      next := Some(readyList[0]);
      readyList := readyList[1..];
    }

    method Run(next: Tid)
      requires next in threads
      modifies this`threads, this`currentThread
      ensures currentThread == Some(next) && threads == old(threads)[next := old(threads)[next].(status := RUNNING)]
    {
      currentThread := Some(next);
      threads := threads[next := threads[next].(status := RUNNING)];
    }

    // ---- Thread ----

    /** Sleep, up to the switch: the running thread is blocked and the head of the ready list runs; with
        nobody ready the machine idles, and Wakeup goes on. */
    method Sleep(mode: Mode)
      requires currentThread.Some? && currentThread.value in threads
      requires forall t :: t in readyList ==> t in threads
      modifies this`threads, this`currentThread, this`readyList
      ensures State() ==
              Reschedule(old(State()).(running := None,
                                       threads := old(threads)[old(currentThread).value := Thread(BLOCKED, mode)]))
    {
      threads := threads[currentThread.value := Thread(BLOCKED, mode)];
      ghost var k := State().(running := None);
      var next := FindNextToRun();
      if next.Some? {
        assert next.value in old(readyList);
        Run(next.value);
        assert State() == Dispatch(k);
      } else {
        currentThread := None;
      }
    }

    method Wakeup()
      requires Inv(State()) && Enabled(State(), Action.Wakeup)
      modifies this`threads, this`currentThread, this`readyList
      ensures State() == Next(old(State()), Action.Wakeup) && Inv(State())
    {
      StepKeepsInv(State(), Action.Wakeup);
      AtPlace(State(), OnReady, readyList[0]);
      var next := FindNextToRun();
      Run(next.value);
    }

    method Fork(t: Tid)
      requires Inv(State()) && Enabled(State(), Action.Fork(t))
      modifies this`threads, this`readyList
      ensures State() == Next(old(State()), Action.Fork(t)) && Inv(State())
    {
      StepKeepsInv(State(), Action.Fork(t));
      threads := threads[t := Thread(READY, Outside)];
      readyList := readyList + [t];
    }

    method Yield()
      requires Inv(State()) && Enabled(State(), Action.Yield)
      modifies this`threads, this`currentThread, this`readyList
      ensures State() == Next(old(State()), Action.Yield) && Inv(State())
    {
      StepKeepsInv(State(), Action.Yield);
      RunningIsLive(State());
      if readyList != [] { AtPlace(State(), OnReady, readyList[0]); }
      hide Inv;
      ghost var k := State();
      var next := FindNextToRun();
      if next.Some? {
        ReadyToRun(currentThread.value);
        Run(next.value);
        YieldedInEitherOrder(k, State());
      }
    }

    method Finish()
      requires Inv(State()) && Enabled(State(), Action.Finish)
      modifies this`threads, this`currentThread, this`readyList
      ensures State() == Next(old(State()), Action.Finish) && Inv(State())
    {
      hide Inv, Next, Enabled;
      StepKeepsInv(State(), Action.Finish);
      FinishedKernel(State());
      threads := threads - {currentThread.value};
      var next := FindNextToRun();
      if next.Some? {
        Run(next.value);
      } else {
        currentThread := None;
      }
    }

    // ---- Semaphore ----

    /** One round of the loop of P: the caller takes a unit, or joins the queue and sleeps. */
    method P(s: nat)
      requires Inv(State()) && s < |semaphores| && MayTake(State(), OnSemaphore(s))
      modifies this
      ensures State() == Down(old(State()), OnSemaphore(s)) && Inv(State())
    {
      hide Inv, MayTake, Down, Reschedule;
      PassingKeepsInv(State(), s);
      CallerIsLive(State(), OnSemaphore(s));
      TestedSemaphore(State(), s);
      var sem, t := semaphores[s], currentThread.value;
      if sem.value == 0 {
        semaphores := semaphores[s := sem.(queue := sem.queue + [t])];
        Sleep(InP(s));
      } else {
        semaphores := semaphores[s := sem.(value := sem.value - 1, downs := sem.downs + 1)];
        threads := threads[t := threads[t].(mode := Outside)];
      }
    }

    /** V, by a thread or by an interrupt handler. */
    method V(s: nat)
      requires Inv(State()) && s < |semaphores|
      modifies this
      ensures State() == Up(old(State()), OnSemaphore(s)) && Inv(State())
    {
      hide Inv, Up, Put;
      StepKeepsInv(State(), HandlerV(s));
      RaisedSemaphore(State(), s);
      if semaphores[s].queue != [] {
        var t := semaphores[s].queue[0];
        semaphores := semaphores[s := semaphores[s].(queue := semaphores[s].queue[1..])];
        ReadyToRun(t);
      }
      var sem := semaphores[s];
      semaphores := semaphores[s := sem.(value := sem.value + 1, ups := sem.ups + 1)];
    }

    // ---- Lock ----

    /** One round of the loop of P inside Acquire; the caller that gets past it becomes the owner. */
    method Acquire(l: nat)
      requires Inv(State()) && l < |locks| && MayTake(State(), OnLock(l))
      modifies this
      ensures State() == TakeLock(old(State()), l) && Inv(State())
    {
      hide Inv, MayTake, TakeLock, Reschedule;
      TakingLock(State(), l);
      CallerIsLive(State(), OnLock(l));
      TestedLock(State(), l);
      var lock, t := locks[l], currentThread.value;
      if lock.semaphore.value == 0 {
        locks := locks[l := lock.(semaphore := lock.semaphore.(queue := lock.semaphore.queue + [t]))];
        Sleep(InAcquire(l));
      } else {
        var sem := lock.semaphore;
        locks := locks[l := lock.(semaphore := sem.(value := sem.value - 1, downs := sem.downs + 1))];
        threads := threads[t := threads[t].(mode := Outside)];
        locks := locks[l := locks[l].(owner := currentThread)];
      }
    }

    method Release(l: nat)
      requires Inv(State()) && Enabled(State(), Action.Release(l))
      modifies this
      ensures State() == Next(old(State()), Action.Release(l)) && Inv(State())
    {
      hide Inv, Enabled, Next, Put;
      StepKeepsInv(State(), Action.Release(l));
      RaisedLock(State(), l);
      locks := locks[l := locks[l].(owner := None)];
      if locks[l].semaphore.queue != [] {
        var t := locks[l].semaphore.queue[0];
        locks := locks[l := locks[l].(semaphore := locks[l].semaphore.(queue := locks[l].semaphore.queue[1..]))];
        ReadyToRun(t);
      }
      var sem := locks[l].semaphore;
      locks := locks[l := locks[l].(semaphore := sem.(value := sem.value + 1, ups := sem.ups + 1))];
    }

    // ---- Condition ----

    /** Wait, up to its Sleep. */
    method Wait(l: nat, c: nat)
      requires Inv(State()) && Enabled(State(), Action.Wait(l, c))
      modifies this
      ensures State() == Next(old(State()), Action.Wait(l, c)) && Inv(State())
    {
      hide Inv, Enabled, Next, Reschedule;
      StepKeepsInv(State(), Action.Wait(l, c));
      WaitedOn(State(), l, c);
      Release(l);
      var t := currentThread.value;
      locks := locks[l := locks[l].(conditions := locks[l].conditions[c := locks[l].conditions[c] + [t]])];
      Sleep(InWait(l, c));
    }

    method Signal(l: nat, c: nat)
      requires Inv(State()) && Enabled(State(), Action.Signal(l, c))
      modifies this
      ensures State() == Next(old(State()), Action.Signal(l, c)) && Inv(State())
    {
      StepKeepsInv(State(), Action.Signal(l, c));
      if locks[l].conditions[c] != [] {
        WakeFirst(l, c);
      }
    }

    /** Removes the first waiter of a condition and makes it ready. */
    method WakeFirst(l: nat, c: nat)
      requires Steady(State()) && l < |locks| && c < |locks[l].conditions| && locks[l].conditions[c] != []
      modifies this
      ensures State() == Wake(old(State()), OnCondition(l, c)) && Steady(State())
    {
      hide Steady, Wake, Put;
      WakingAny(State(), OnCondition(l, c));
      FirstWoken(State(), l, c);
      var t := locks[l].conditions[c][0];
      locks := locks[l := locks[l].(conditions := locks[l].conditions[c := locks[l].conditions[c][1..]])];
      ReadyToRun(t);
    }

    method Broadcast(l: nat, c: nat)
      requires Inv(State()) && Enabled(State(), Action.Broadcast(l, c))
      modifies this
      ensures State() == Next(old(State()), Action.Broadcast(l, c)) && Inv(State())
    {
      hide Steady, Wake, WakeAll;
      StepKeepsInv(State(), Action.Broadcast(l, c));
      InvSteady(State());
      while locks[l].conditions[c] != []
        invariant Steady(State()) && l < |locks| && c < |locks[l].conditions|
        invariant WakeAll(State(), OnCondition(l, c), |locks[l].conditions[c]|)
               == Next(old(State()), Action.Broadcast(l, c))
        decreases |locks[l].conditions[c]|
      {
        FirstOfAll(State(), l, c);
        WakeFirst(l, c);
      }
      NoneLeft(State(), OnCondition(l, c));
    }

    /** A thread that was woken inside P, Acquire or Wait goes on. */
    method Resume()
      requires Inv(State()) && Enabled(State(), Action.Resume)
      modifies this
      ensures State() == Next(old(State()), Action.Resume) && Inv(State())
    {
      StepKeepsInv(State(), Action.Resume);
      RunningIsLive(State());
      match threads[currentThread.value].mode
      case InP(s) => P(s);
      case InAcquire(l) => Acquire(l);
      case InWait(l, c) => Acquire(l);
    }
  }

  // ---- The steps, field by field ----

  /** Who may do what: the running thread, unless it is still inside a routine, calls any routine, those of a
      lock's owner only as its owner; a handler may call V, and the idle loop goes on, at any time. */
  lemma MayAct(k: Kernel, s: nat, l: nat, c: nat, t: Tid)
    requires Inv(k)
    ensures var free := RunsOutside(k);
            && (Enabled(k, Action.P(s)) <==> free && s < |k.semaphores|)
            && (Enabled(k, Action.V(s)) <==> free && s < |k.semaphores|)
            && (Enabled(k, Action.Acquire(l)) <==> free && l < |k.locks|)
            && (Enabled(k, Action.Release(l)) <==> Owned(k, free, l))
            && (Enabled(k, Action.Wait(l, c)) <==> Owned(k, free, l) && c < |k.locks[l].conditions|)
            && (Enabled(k, Action.Signal(l, c)) <==> Owned(k, free, l) && c < |k.locks[l].conditions|)
            && (Enabled(k, Action.Broadcast(l, c)) <==> Owned(k, free, l) && c < |k.locks[l].conditions|)
            && (Enabled(k, Action.Yield) <==> free) && (Enabled(k, Action.Finish) <==> free)
            && (Enabled(k, Action.Fork(t)) <==> free && t !in k.threads)
            && (Enabled(k, Action.Resume) <==> k.running.Some? && !free)
            && (Enabled(k, Action.HandlerV(s)) <==> s < |k.semaphores|)
            && (Enabled(k, Action.Wakeup) <==> k.running == None && k.ready != [])
  {
    hide Inv, WaitsFor;
    InsideWaits(k);
  }

  lemma InsideWaits(k: Kernel)
    requires Inv(k)
    ensures k.running.Some? ==>
              && k.running.value in k.threads && ThreadAt(k, k.running.value) == k.threads[k.running.value]
              && (WaitsFor(k, k.threads[k.running.value].mode) <==> k.threads[k.running.value].mode != Outside)
  {
    if k.running.Some? { RunningIsLive(k); }
    hide Placed, SemaphoresOk, LocksOk;
  }

  predicate RunsOutside(k: Kernel) {
    k.running.Some? && k.running.value in k.threads && k.threads[k.running.value].mode == Outside
  }

  predicate Owned(k: Kernel, free: bool, l: nat) {
    free && l < |k.locks| && k.locks[l].owner == k.running
  }

  /** Sleep hands the processor to the head of the ready list, if there is one. */
  lemma Rescheduled(k: Kernel)
    requires k.running == None
    ensures Reschedule(k) ==
            if k.ready == [] then k
            else k.(running := Some(k.ready[0]), ready := k.ready[1..],
                    threads := k.threads[k.ready[0] := ThreadAt(k, k.ready[0]).(status := RUNNING)])
  {
  }

  /** Yield: the caller goes to the tail of the ready list and its head runs; with nobody else ready, nothing
      changes. */
  lemma Yielded(k: Kernel)
    requires Inv(k) && Enabled(k, Action.Yield)
    ensures Next(k, Action.Yield) ==
            if k.ready == [] then k
            else
              var (me, next) := (k.running.value, k.ready[0]);
              k.(running := Some(next), ready := k.ready[1..] + [me],
                 threads := k.threads[me := ThreadAt(k, me).(status := READY)]
                                     [next := ThreadAt(k, next).(status := RUNNING)])
  {
    RunningIsLive(k);
    if k.ready != [] {
      AtPlace(k, OnReady, k.ready[0]);
      YieldedInEitherOrder(k, k.(running := Some(k.ready[0]), ready := k.ready[1..] + [k.running.value],
        threads := k.threads[k.running.value := k.threads[k.running.value].(status := READY)]
                            [k.ready[0] := k.threads[k.ready[0]].(status := RUNNING)]));
    }
  }

  /** Fork puts the new thread at the tail of the ready list, and the idle loop of Sleep takes its head. */
  lemma ForkedAndWoken(k: Kernel, t: Tid)
    ensures Enabled(k, Action.Fork(t)) ==>
              Next(k, Action.Fork(t)) == k.(ready := k.ready + [t], threads := k.threads[t := Thread(READY, Outside)])
    ensures Enabled(k, Action.Wakeup) ==> Next(k, Action.Wakeup) == Reschedule(k)
  {
    hide Reschedule;
    if k.ready != [] { Ready(k); }
  }

  lemma Ready(k: Kernel)
    requires k.ready != []
    ensures Reschedule(k) == Dispatch(k)
  {
  }

  /** Threads of a queue made ready. */
  function MadeReady(threads: map<Tid, Thread>, q: seq<Tid>): map<Tid, Thread> {
    map t | t in threads :: if t in q then threads[t].(status := READY) else threads[t]
  }

  /** Broadcast empties the queue of the condition and makes all its threads ready, in their order, at the tail
      of the ready list. */
  lemma {:induction false} AllWoken(k: Kernel, l: nat, c: nat)
    requires Steady(k) && l < |k.locks| && c < |k.locks[l].conditions|
    ensures var (q, lock) := (k.locks[l].conditions[c], k.locks[l]);
            WakeAll(k, OnCondition(l, c), |q|) ==
            k.(locks := k.locks[l := lock.(conditions := lock.conditions[c := []])],
               ready := k.ready + q, threads := MadeReady(k.threads, q))
    decreases |k.locks[l].conditions[c]|
  {
    hide Steady, Wake, WakeAll, QueueAt;
    var (p, q) := (OnCondition(l, c), k.locks[l].conditions[c]);
    if q == [] {
      NoneLeft(k, p);
      assert k.locks[l].conditions[c := []] == k.locks[l].conditions;
      assert k.locks[l := k.locks[l]] == k.locks;
      assert MadeReady(k.threads, q) == k.threads;
    } else {
      FirstOfAll(k, l, c);
      FirstWoken(k, l, c);
      var k' := Wake(k, p);
      assert Steady(k') by { WakingAny(k, p); }
      AllWoken(k', l, c);
      MadeReadyRest(k.threads, q);
      assert q == [q[0]] + q[1..];
      var cs := k.locks[l].conditions;
      assert cs[c := q[1..]][c := []] == cs[c := []];
      var lock, lock' := k.locks[l].(conditions := cs[c := q[1..]]), k.locks[l].(conditions := cs[c := []]);
      assert k.locks[l := lock][l := lock'] == k.locks[l := lock'];
    }
  }

  lemma MadeReadyRest(threads: map<Tid, Thread>, q: seq<Tid>)
    requires q != [] && q[0] in threads
    ensures MadeReady(threads[q[0] := threads[q[0]].(status := READY)], q[1..]) == MadeReady(threads, q)
  {
    var threads' := threads[q[0] := threads[q[0]].(status := READY)];
    var m, m' := MadeReady(threads, q), MadeReady(threads', q[1..]);
    assert m'.Keys == m.Keys;
    forall t | t in m
      ensures m'[t] == m[t]
    {
      assert t in q <==> t == q[0] || t in q[1..];
    }
  }

  /** Block, once the caller has joined its queue. */
  lemma Queued(k: Kernel, mode: Mode)
    requires k.running.Some? && mode != Outside && Exists(k, PlaceOf(Thread(BLOCKED, mode)))
    ensures var p := PlaceOf(Thread(BLOCKED, mode));
            Block(k, mode) ==
            Reschedule(WithQueue(k, p, QueueAt(k, p) + [k.running.value])
                       .(running := None, threads := k.threads[k.running.value := Thread(BLOCKED, mode)]))
  {
    hide Reschedule;
  }

  /** The caller of P or Acquire is live, and so is everybody on the ready list. */
  lemma CallerIsLive(k: Kernel, p: Place)
    requires Inv(k) && MayTake(k, p)
    ensures k.running.Some? && k.running.value in k.threads && k.threads[k.running.value].status == RUNNING
    ensures forall t :: t in k.ready ==> t in k.threads
  {
    RunningIsLive(k);
    ReadyIsLive(k);
  }

  lemma ReadyIsLive(k: Kernel)
    requires Placed(k)
    ensures forall t :: t in k.ready ==> t in k.threads
  {
    forall t | t in k.ready
      ensures t in k.threads
    {
      AtPlace(k, OnReady, t);
    }
  }

  lemma FinishedKernel(k: Kernel)
    requires Inv(k) && Enabled(k, Action.Finish)
    ensures k.running.Some? && k.running.value in k.threads
    ensures k.ready != [] ==> k.ready[0] in k.threads && k.ready[0] != k.running.value
    ensures Next(k, Action.Finish) == Reschedule(k.(running := None, threads := k.threads - {k.running.value}))
  {
    RunningIsLive(k);
    if k.ready != [] {
      AtPlace(k, OnReady, k.ready[0]);
      AtPlace(k, OnCpu, k.running.value);
    }
    hide Inv, Reschedule;
  }

  lemma TestedSemaphore(k: Kernel, s: nat)
    requires s < |k.semaphores| && k.running.Some? && k.running.value in k.threads
    ensures var (sem, t) := (k.semaphores[s], k.running.value);
            Down(k, OnSemaphore(s)) ==
            if sem.value == 0 then
              Reschedule(k.(semaphores := k.semaphores[s := sem.(queue := sem.queue + [t])],
                            running := None, threads := k.threads[t := Thread(BLOCKED, InP(s))]))
            else
              k.(semaphores := k.semaphores[s := sem.(value := sem.value - 1, downs := sem.downs + 1)],
                 threads := k.threads[t := k.threads[t].(mode := Outside)])
  {
    hide Reschedule;
    Queued(k, InP(s));
  }

  lemma TestedLock(k: Kernel, l: nat)
    requires l < |k.locks| && k.running.Some? && k.running.value in k.threads
    ensures var (lock, sem, t) := (k.locks[l], k.locks[l].semaphore, k.running.value);
            TakeLock(k, l) ==
            if sem.value == 0 then
              Reschedule(k.(locks := k.locks[l := lock.(semaphore := sem.(queue := sem.queue + [t]))],
                            running := None, threads := k.threads[t := Thread(BLOCKED, InAcquire(l))]))
            else
              var taken := sem.(value := sem.value - 1, downs := sem.downs + 1);
              k.(locks := k.locks[l := Lock(taken, Some(t), lock.conditions)],
                 threads := k.threads[t := k.threads[t].(mode := Outside)])
  {
    hide Reschedule;
    Queued(k, InAcquire(l));
  }

  lemma RaisedSemaphore(k: Kernel, s: nat)
    requires Inv(k) && s < |k.semaphores|
    ensures var sem := k.semaphores[s];
            (sem.queue != [] ==> sem.queue[0] in k.threads)
            && Up(k, OnSemaphore(s)) ==
               if sem.queue == [] then
                 k.(semaphores := k.semaphores[s := sem.(value := sem.value + 1, ups := sem.ups + 1)])
               else
                 var t := sem.queue[0];
                 var raised := sem.(queue := sem.queue[1..], value := sem.value + 1, ups := sem.ups + 1);
                 k.(semaphores := k.semaphores[s := raised],
                    ready := k.ready + [t], threads := k.threads[t := ThreadAt(k, t).(status := READY)])
  {
    if k.semaphores[s].queue != [] { AtPlace(k, OnSemaphore(s), k.semaphores[s].queue[0]); }
  }

  lemma RaisedLock(k: Kernel, l: nat)
    requires Inv(k) && Enabled(k, Action.Release(l))
    ensures l < |k.locks|
    ensures var (sem, lock) := (k.locks[l].semaphore, k.locks[l].(owner := None));
            (sem.queue != [] ==> sem.queue[0] in k.threads)
            && Next(k, Action.Release(l)) ==
               if sem.queue == [] then
                 k.(locks := k.locks[l := lock.(semaphore := sem.(value := sem.value + 1, ups := sem.ups + 1))])
               else
                 var t := sem.queue[0];
                 var raised := sem.(queue := sem.queue[1..], value := sem.value + 1, ups := sem.ups + 1);
                 k.(locks := k.locks[l := lock.(semaphore := raised)],
                    ready := k.ready + [t], threads := k.threads[t := ThreadAt(k, t).(status := READY)])
  {
    if k.locks[l].semaphore.queue != [] { AtPlace(k, OnLock(l), k.locks[l].semaphore.queue[0]); }
    hide Inv;
  }

  /** Wait is Release, then a place in the queue of the condition, then Sleep. */
  lemma WaitedOn(k: Kernel, l: nat, c: nat)
    requires Inv(k) && Enabled(k, Action.Wait(l, c))
    ensures Enabled(k, Action.Release(l))
    ensures var k1 := Next(k, Action.Release(l));
            && k1.running.Some? && k1.running.value in k1.threads && (forall t :: t in k1.ready ==> t in k1.threads)
            && l < |k1.locks| && c < |k1.locks[l].conditions|
            && var (lock, t) := (k1.locks[l], k1.running.value);
            Next(k, Action.Wait(l, c)) ==
            Reschedule(k1.(locks := k1.locks[l := lock.(conditions := lock.conditions[c := lock.conditions[c] + [t]])],
                           running := None, threads := k1.threads[t := Thread(BLOCKED, InWait(l, c))]))
  {
    hide Reschedule, Placed, ReleaseLock, Up;
    StepKeepsInv(k, Action.Release(l));
    var k1 := ReleaseLock(k, l);
    RunningIsLive(k1);
    ReadyIsLive(k1);
    Queued(k1, InWait(l, c));
  }

  lemma FirstWoken(k: Kernel, l: nat, c: nat)
    requires Steady(k) && l < |k.locks| && c < |k.locks[l].conditions| && k.locks[l].conditions[c] != []
    ensures var (q, lock) := (k.locks[l].conditions[c], k.locks[l]);
            q[0] in k.threads && Wake(k, OnCondition(l, c)) ==
            k.(locks := k.locks[l := lock.(conditions := lock.conditions[c := q[1..]])],
               ready := k.ready + [q[0]], threads := k.threads[q[0] := k.threads[q[0]].(status := READY)])
  {
    AtPlace(k, OnCondition(l, c), k.locks[l].conditions[c][0]);
    hide Steady;
  }

  /** Waking all waiters is waking the first, then all of the rest. */
  lemma FirstOfAll(k: Kernel, l: nat, c: nat)
    requires l < |k.locks| && c < |k.locks[l].conditions| && k.locks[l].conditions[c] != []
    ensures var (p, q, k') := (OnCondition(l, c), k.locks[l].conditions[c], Wake(k, OnCondition(l, c)));
            && l < |k'.locks| && c < |k'.locks[l].conditions| && k'.locks[l].conditions[c] == q[1..]
            && WakeAll(k, p, |q|) == WakeAll(k', p, |q[1..]|)
  {
    hide Wake, WakeAll, QueueAt;
    WokenQueue(k, l, c);
    OneOfAll(k, OnCondition(l, c), |k.locks[l].conditions[c]|);
  }

  lemma OneOfAll(k: Kernel, p: Place, n: nat)
    requires p.OnCondition? && n > 0
    ensures WakeAll(k, p, n) == WakeAll(Wake(k, p), p, n - 1)
  {
    hide Wake, QueueAt;
  }

  lemma WokenQueue(k: Kernel, l: nat, c: nat)
    requires l < |k.locks| && c < |k.locks[l].conditions| && k.locks[l].conditions[c] != []
    ensures var k' := Wake(k, OnCondition(l, c));
            l < |k'.locks| && c < |k'.locks[l].conditions| && k'.locks[l].conditions[c] == k.locks[l].conditions[c][1..]
  {
  }

  lemma NoneLeft(k: Kernel, p: Place)
    requires p.OnCondition?
    ensures WakeAll(k, p, 0) == k
  {
  }

  lemma YieldedInEitherOrder(k: Kernel, k': Kernel)
    requires k.running.Some? && k.ready != [] && k.running.value in k.threads && k.ready[0] in k.threads
    requires ThreadAt(k, k.running.value).mode == Outside && k.ready[0] != k.running.value
    requires var me, next := k.running.value, k.ready[0];
             k' == k.(running := Some(next), ready := k.ready[1..] + [me],
                      threads := k.threads[me := k.threads[me].(status := READY)]
                                          [next := k.threads[next].(status := RUNNING)])
    ensures k' == YieldCpu(k)
  {
    assert (k.ready + [k.running.value])[1..] == k.ready[1..] + [k.running.value];
  }
}
