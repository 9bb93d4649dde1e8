/** The order in which the kernel serves threads: ready threads first in, first out, and so the threads
    that sleep on a semaphore, a lock or a condition; a signal finds every waiter; and whoever leaves
    Acquire or Wait owns the lock. */
module KernelOrder {
  import opened Kernels
  import opened KernelSafety

  lemma OnePlaceNow(k: Kernel, t: Tid, p: Place)
    requires Inv(k) && t in k.threads
    ensures t in QueueAt(k, p) <==> p == PlaceOf(k.threads[t])
    ensures NoDuplicates(QueueAt(k, p))
    ensures PlaceOf(k.threads[t]) != Nowhere
    ensures k.threads[t].status == RUNNING <==> k.running == Some(t)
    ensures k.threads[t].status == READY <==> t in k.ready
  {
    assert Agrees(k, p) && Agrees(k, Nowhere) && Agrees(k, OnCpu) && Agrees(k, OnReady);
    assert PlaceOf(k.threads[t]) == Nowhere ==> t in QueueAt(k, Nowhere);
  }

  /** In every state of every run a live thread is in one place, once, and its status says which. */
  lemma OnePlace(states: seq<Kernel>, actions: seq<Action>, n: nat, t: Tid, p: Place)
    requires Run(states, actions) && n < |states| && t in states[n].threads
    ensures t in QueueAt(states[n], p) <==> p == PlaceOf(states[n].threads[t])
    ensures NoDuplicates(QueueAt(states[n], p))
    ensures PlaceOf(states[n].threads[t]) != Nowhere
    ensures states[n].threads[t].status == RUNNING <==> states[n].running == Some(t)
    ensures states[n].threads[t].status == READY <==> t in states[n].ready
  {
    hide Run, Inv, QueueAt, PlaceOf;
    RunKeepsInv(states, actions, n);
    OnePlaceNow(states[n], t, p);
  }

  /** In every state of every run the value of a semaphore is its first value plus the V's less the
      completed P's, and never negative; and while threads sleep on it, it is at most the number of
      woken threads still on their way back into P: with none of those, it is 0. */
  lemma NoLostWakeup(states: seq<Kernel>, actions: seq<Action>, n: nat, p: Place)
    requires Run(states, actions) && n < |states| && IsSemaphore(states[n], p)
    ensures var sem := SemaphoreAt(states[n], p); 0 <= sem.value == sem.initial + sem.ups - sem.downs
    ensures SemaphoreAt(states[n], p).queue != [] ==> SemaphoreAt(states[n], p).value <= |Woken(states[n].threads, p)|
    ensures SemaphoreAt(states[n], p).queue != [] && Woken(states[n].threads, p) == {} ==>
              SemaphoreAt(states[n], p).value == 0
  {
    hide Run, Placed, ModesOk, LocksOk, Woken;
    RunKeepsInv(states, actions, n);
    SoundAt(states[n], p);
  }

  // ---- The ready list ----

  /** FindNextToRun handed out a thread. */
  predicate Dispatched(k: Kernel, k': Kernel) {
    k'.running.Some? && k'.running != k.running
  }

  /** The ready list loses its head exactly when a thread is dispatched, to that thread, and grows
      at its tail only. */
  ghost predicate Advances(k: Kernel, k': Kernel) {
    if !Dispatched(k, k') then k.ready <= k'.ready
    else if k.ready != [] then k'.running == Some(k.ready[0]) && k.ready[1..] <= k'.ready
    else k'.ready == []
  }

  /** With nobody ready, only a Wait that gives its lock up dispatches a thread: the first one that
      sleeps on that lock. */
  ghost predicate HandsOver(k: Kernel, a: Action, k': Kernel) {
    && a.Wait? && a.l < |k.locks| && k.locks[a.l].semaphore.queue != []
    && k'.running == Some(k.locks[a.l].semaphore.queue[0])
  }

  lemma UpAppends(k: Kernel, p: Place)
    requires IsSemaphore(k, p)
    ensures k.ready <= Up(k, p).ready && Up(k, p).running == k.running
  {
  }

  lemma WakeAppends(k: Kernel, p: Place)
    requires p != OnCpu && p != OnReady
    ensures k.ready <= Wake(k, p).ready && Wake(k, p).running == k.running
  {
  }

  lemma {:induction false} WakeAllAppends(k: Kernel, p: Place, n: nat)
    requires p != OnCpu && p != OnReady
    ensures k.ready <= WakeAll(k, p, n).ready && WakeAll(k, p, n).running == k.running
    decreases n
  {
    hide Wake;
    if n > 0 {
      WakeAppends(k, p);
      WakeAllAppends(Wake(k, p), p, n - 1);
    }
  }

  lemma RescheduleTakesHead(k: Kernel)
    requires k.running == None
    ensures var k' := Reschedule(k);
            if k.ready == [] then k' == k else k'.running == Some(k.ready[0]) && k'.ready == k.ready[1..]
  {
  }

  lemma CallerQueued(k: Kernel, mode: Mode)
    requires k.running.Some? && mode != Outside && Exists(k, PlaceOf(Thread(BLOCKED, mode)))
    ensures var k1 := Put(Take(k, OnCpu), k.running.value, Thread(BLOCKED, mode));
            k1.running == None && k1.ready == k.ready
  {
  }

  /** Sleep hands the processor to the head of the ready list. */
  lemma BlockTakesHead(k: Kernel, mode: Mode)
    requires k.running.Some? && mode != Outside && Exists(k, PlaceOf(Thread(BLOCKED, mode)))
    ensures var k' := Block(k, mode);
            if k.ready == [] then k'.running == None && k'.ready == []
            else k'.running == Some(k.ready[0]) && k'.ready == k.ready[1..]
  {
    hide Put, Take, Reschedule, PlaceOf;
    CallerQueued(k, mode);
    RescheduleTakesHead(Put(Take(k, OnCpu), k.running.value, Thread(BLOCKED, mode)));
  }

  lemma ReadyNotRunning(k: Kernel)
    requires Placed(k)
    ensures k.ready != [] ==> Some(k.ready[0]) != k.running
  {
    if k.ready != [] {
      AtPlace(k, OnReady, k.ready[0]);
      if k.running.Some? { AtPlace(k, OnCpu, k.running.value); }
    }
  }

  /** The caller is still running, and the ready list has grown at its tail at most. */
  ghost predicate Undisturbed(k: Kernel, k': Kernel) {
    k.ready <= k'.ready && k'.running == k.running
  }

  /** The head of the ready list got the processor, or with nobody ready nobody did. */
  ghost predicate TakesHead(k: Kernel, k': Kernel) {
    if k.ready == [] then k'.running == None && k'.ready == []
    else k'.running == Some(k.ready[0]) && k.ready[1..] <= k'.ready
  }

  /** The kernel before and after a step that goes by the ready list alone. */
  ghost predicate Plain(k: Kernel, k': Kernel) {
    Undisturbed(k, k') || TakesHead(k, k')
  }

  lemma PlainAdvances(k: Kernel, k': Kernel)
    requires Placed(k) && Plain(k, k')
    ensures Advances(k, k') && (k.ready == [] ==> !Dispatched(k, k'))
  {
    ReadyNotRunning(k);
  }

  lemma DownPlain(k: Kernel, p: Place)
    requires IsSemaphore(k, p) && k.running.Some?
    ensures Plain(k, Down(k, p))
  {
    hide Block, PlaceOf;
    if SemaphoreAt(k, p).value == 0 {
      PlaceOfWaiter(p);
      BlockTakesHead(k, WaitMode(p));
    }
  }

  lemma PlaceOfWaiter(p: Place)
    requires p.OnSemaphore? || p.OnLock?
    ensures PlaceOf(Thread(BLOCKED, WaitMode(p))) == p
  {
  }

  lemma TakeLockPlain(k: Kernel, l: nat)
    requires l < |k.locks| && k.running.Some?
    ensures Plain(k, TakeLock(k, l))
  {
    hide Down, Plain;
    DownPlain(k, OnLock(l));
    OwnerKeepsReady(k, Down(k, OnLock(l)), l);
  }

  lemma OwnerKeepsReady(k: Kernel, k1: Kernel, l: nat)
    requires Plain(k, k1) && l < |k1.locks|
    ensures Plain(k, WithOwner(k1, l, k.running))
  {
  }

  lemma YieldPlain(k: Kernel)
    requires RunsFreely(k)
    ensures Plain(k, YieldCpu(k))
  {
  }

  lemma FinishPlain(k: Kernel)
    requires Enabled(k, Finish)
    ensures Plain(k, Next(k, Finish))
  {
  }

  lemma DispatchPlain(k: Kernel)
    requires k.running == None && k.ready != []
    ensures Plain(k, Dispatch(k))
  {
  }

  lemma ResumePlain(k: Kernel)
    requires Enabled(k, Resume)
    ensures Plain(k, Next(k, Resume))
  {
    hide Down, TakeLock, Plain;
    match ThreadAt(k, k.running.value).mode
    case InP(s) => DownPlain(k, OnSemaphore(s));
    case InAcquire(l) => TakeLockPlain(k, l);
    case InWait(l, c) => TakeLockPlain(k, l);
  }

  lemma StepPlain(k: Kernel, a: Action)
    requires Enabled(k, a) && !a.Wait?
    ensures Plain(k, Next(k, a))
  {
    hide Down, TakeLock, Up, Wake, WakeAll, Put, Reschedule, Continue, Dispatch, YieldCpu, Take;
    match a
    case P(s) => DownPlain(k, OnSemaphore(s));
    case V(s) => UpAppends(k, OnSemaphore(s));
    case Acquire(l) => TakeLockPlain(k, l);
    case Release(l) => UpAppends(WithOwner(k, l, None), OnLock(l));
    case Signal(l, c) => WakeAppends(k, OnCondition(l, c));
    case Broadcast(l, c) => WakeAllAppends(k, OnCondition(l, c), |k.locks[l].conditions[c]|);
    case Yield => YieldPlain(k);
    case Fork(t) => ForkAppends(k, t);
    case Finish => FinishPlain(k);
    case Resume => ResumePlain(k);
    case HandlerV(s) => UpAppends(k, OnSemaphore(s));
    case Wakeup => DispatchPlain(k);
  }

  lemma ForkAppends(k: Kernel, t: Tid)
    ensures Undisturbed(k, Put(k, t, Thread(READY, Outside)))
  {
  }

  /** Wait appends the thread it lets into the lock, if any, and then takes the head. */
  lemma WaitTakesHead(k: Kernel, l: nat, c: nat)
    requires Holds(k, l) && c < |k.locks[l].conditions|
    ensures var (k', q) := (WaitOn(k, l, c), k.locks[l].semaphore.queue);
            if k.ready == [] && q != [] then k'.running == Some(q[0]) && k'.ready == [] else TakesHead(k, k')
  {
    hide Block, Up;
    var k1 := ReleaseLock(k, l);
    ReleaseAppends(k, l);
    BlockTakesHead(k1, InWait(l, c));
  }

  lemma ReleaseAppends(k: Kernel, l: nat)
    requires l < |k.locks|
    ensures var q := k.locks[l].semaphore.queue;
            ReleaseLock(k, l).ready == k.ready + (if q == [] then [] else [q[0]])
  {
  }

  lemma StepAdvances(k: Kernel, a: Action)
    requires Inv(k) && Enabled(k, a)
    ensures Advances(k, Next(k, a))
    ensures k.ready == [] && Dispatched(k, Next(k, a)) ==> HandsOver(k, a, Next(k, a))
  {
    hide WaitOn, Plain, Placed;
    if a.Wait? {
      WaitTakesHead(k, a.l, a.c);
      ReadyNotRunning(k);
    } else {
      hide Next, Enabled;
      StepPlain(k, a);
      PlainAdvances(k, Next(k, a));
    }
  }

  /** How many threads were dispatched between two states of a run. */
  ghost function Dispatches(states: seq<Kernel>, i: nat, j: nat): nat
    requires i <= j < |states|
  {
    if i == j then 0 else Dispatches(states, i, j - 1) + (if Dispatched(states[j - 1], states[j]) then 1 else 0)
  }

  /** First in, first out: the thread at position `p` of the ready list moves up by one with every
      dispatch, and the dispatch number `p + 1` runs it. */
  lemma {:induction false} ServedInOrder(states: seq<Kernel>, actions: seq<Action>, i: nat, j: nat, p: nat)
    requires Run(states, actions) && i <= j < |states| && p < |states[i].ready|
    ensures var n := Dispatches(states, i, j);
            n <= p ==> p - n < |states[j].ready| && states[j].ready[p - n] == states[i].ready[p]
    ensures i < j && Dispatches(states, i, j - 1) == p && Dispatches(states, i, j) == p + 1 ==>
              states[j].running == Some(states[i].ready[p])
  {
    hide Initial, Enabled, Next, Advances, Dispatched;
    if i < j {
      ServedInOrder(states, actions, i, j - 1, p);
      RunAdvances(states, actions, j - 1);
      var n := Dispatches(states, i, j - 1);
      if n <= p { MovesUp(states[j - 1], states[j], p - n); }
    }
  }

  lemma MovesUp(k: Kernel, k': Kernel, p: nat)
    requires Advances(k, k') && p < |k.ready|
    ensures !Dispatched(k, k') ==> p < |k'.ready| && k'.ready[p] == k.ready[p]
    ensures Dispatched(k, k') && p == 0 ==> k'.running == Some(k.ready[0])
    ensures Dispatched(k, k') && p > 0 ==> p - 1 < |k'.ready| && k'.ready[p - 1] == k.ready[p]
  {
    hide Dispatched;
    if Dispatched(k, k') && p > 0 {
      assert k.ready[1..][p - 1] == k.ready[p];
    }
  }

  lemma RunAdvances(states: seq<Kernel>, actions: seq<Action>, i: nat)
    requires Run(states, actions) && i + 1 < |states|
    ensures Advances(states[i], states[i + 1])
  {
    hide Inv, Enabled, Next, Initial, Advances;
    RunKeepsInv(states, actions, i);
    StepAdvances(states[i], actions[i]);
  }

  // ---- Waiting ----

  /** The lock a thread in this mode is still going to take. */
  predicate Wants(mode: Mode, l: nat) {
    mode == InAcquire(l) || (mode.InWait? && mode.l == l)
  }

  /** The running thread goes on, in this mode, by testing the semaphore of lock `l`. */
  predicate TestsLock(k: Kernel, a: Action, l: nat)
    requires Enabled(k, a)
  {
    a == Acquire(l) || (a == Resume && Wants(ThreadAt(k, k.running.value).mode, l))
  }

  predicate TestsSemaphore(k: Kernel, a: Action, s: nat)
    requires Enabled(k, a)
  {
    a == P(s) || (a == Resume && ThreadAt(k, k.running.value).mode == InP(s))
  }

  /** The queues that threads sleep in. */
  predicate IsQueue(p: Place) {
    p.OnSemaphore? || p.OnLock? || p.OnCondition?
  }

  /** The step puts its caller to sleep in the queue at `p`. */
  predicate Sleeps(k: Kernel, a: Action, p: Place)
    requires Enabled(k, a)
  {
    match p
    case OnSemaphore(s) => s < |k.semaphores| && TestsSemaphore(k, a, s) && k.semaphores[s].value == 0
    case OnLock(l) => l < |k.locks| && TestsLock(k, a, l) && k.locks[l].semaphore.value == 0
    case OnCondition(l, c) => a == Wait(l, c)
    case _ => false
  }

  /** The step wakes the first thread in the queue at `p`: V, the Release of a lock, on its own or at
      the head of Wait, or Signal. */
  predicate WakesFirst(a: Action, p: Place) {
    match p
    case OnSemaphore(s) => a == V(s) || a == HandlerV(s)
    case OnLock(l) => a == Release(l) || (a.Wait? && a.l == l)
    case OnCondition(l, c) => a == Signal(l, c)
    case _ => false
  }

  predicate WakesAll(a: Action, p: Place) {
    p.OnCondition? && a == Broadcast(p.l, p.c)
  }

  function Tail(q: seq<Tid>): seq<Tid> {
    if q == [] then [] else q[1..]
  }

  /** A waiting queue after a step. */
  function QueueAfterStep(k: Kernel, a: Action, p: Place): seq<Tid>
    requires Enabled(k, a)
  {
    var q := QueueAt(k, p);
    if Sleeps(k, a, p) then q + [k.running.value]
    else if WakesFirst(a, p) then Tail(q)
    else if WakesAll(a, p) then []
    else q
  }

  lemma WakeQueue(k: Kernel, p: Place, w: Place)
    requires !p.OnCpu? && !p.OnReady? && IsQueue(w)
    ensures QueueAt(Wake(k, p), w) == if p == w then Tail(QueueAt(k, w)) else QueueAt(k, w)
  {
  }

  /** Counting changes no queue. */
  lemma CountsKeepQueue(k: Kernel, p: Place, sem: Semaphore, threads: map<Tid, Thread>, w: Place)
    requires IsSemaphore(k, p) && sem.queue == SemaphoreAt(k, p).queue && IsQueue(w)
    ensures QueueAt(WithSemaphore(k, p, sem).(threads := threads), w) == QueueAt(k, w)
  {
  }

  lemma UpQueue(k: Kernel, p: Place, w: Place)
    requires IsSemaphore(k, p) && IsQueue(w)
    ensures QueueAt(Up(k, p), w) == if p == w then Tail(QueueAt(k, w)) else QueueAt(k, w)
  {
    hide Wake, QueueAt, WithSemaphore;
    var k1 := Wake(k, p);
    var sem := SemaphoreAt(k1, p);
    WakeQueue(k, p, w);
    CountsKeepQueue(k1, p, sem.(value := sem.value + 1, ups := sem.ups + 1), k1.threads, w);
    SameThreads(k1, p, sem.(value := sem.value + 1, ups := sem.ups + 1));
  }

  lemma SameThreads(k: Kernel, p: Place, sem: Semaphore)
    requires IsSemaphore(k, p)
    ensures WithSemaphore(k, p, sem).(threads := k.threads) == WithSemaphore(k, p, sem)
  {
  }

  lemma PutQueue(k: Kernel, t: Tid, th: Thread, w: Place)
    requires Exists(k, PlaceOf(th)) && (PlaceOf(th) == OnCpu ==> k.running == None) && IsQueue(w)
    ensures QueueAt(Put(k, t, th), w) == QueueAt(k, w) + (if PlaceOf(th) == w then [t] else [])
  {
    var k1 := WithQueue(k, PlaceOf(th), QueueAt(k, PlaceOf(th)) + [t]);
    QueueAfter(k, PlaceOf(th), QueueAt(k, PlaceOf(th)) + [t], w);
    QueuesOnly(k1, Put(k, t, th), w);
  }

  lemma RescheduleQueue(k: Kernel, w: Place)
    requires k.running == None && IsQueue(w)
    ensures QueueAt(Reschedule(k), w) == QueueAt(k, w)
  {
    if k.ready != [] {
      PutQueue(Take(k, OnReady), k.ready[0], ThreadAt(k, k.ready[0]).(status := RUNNING), w);
    }
  }

  lemma CpuTaken(k: Kernel)
    ensures k.running.Some? ==> Take(k, OnCpu) == k.(running := None)
  {
  }

  lemma OwnRecordsOnly(k: Kernel, k': Kernel, w: Place)
    requires k'.locks == k.locks && k'.semaphores == k.semaphores && IsQueue(w)
    ensures QueueAt(k', w) == QueueAt(k, w)
  {
  }

  lemma BlockQueue(k: Kernel, mode: Mode, w: Place)
    requires k.running.Some? && mode != Outside && Exists(k, PlaceOf(Thread(BLOCKED, mode))) && IsQueue(w)
    ensures QueueAt(Block(k, mode), w) == QueueAt(k, w)
                                        + (if PlaceOf(Thread(BLOCKED, mode)) == w then [k.running.value] else [])
  {
    hide Put, Reschedule, Take, QueueAt;
    var k1 := k.(running := None);
    CpuTaken(k);
    OwnRecordsOnly(k, k1, w);
    PutQueue(k1, k.running.value, Thread(BLOCKED, mode), w);
    CallerQueued(k, mode);
    RescheduleQueue(Put(k1, k.running.value, Thread(BLOCKED, mode)), w);
  }

  lemma DownQueue(k: Kernel, p: Place, w: Place)
    requires IsSemaphore(k, p) && k.running.Some? && IsQueue(w)
    ensures QueueAt(Down(k, p), w) == QueueAt(k, w)
                                    + (if p == w && SemaphoreAt(k, p).value == 0 then [k.running.value] else [])
  {
    hide Block, PlaceOf, QueueAt, WithSemaphore;
    var (sem, t) := (SemaphoreAt(k, p), k.running.value);
    if sem.value == 0 {
      PlaceOfWaiter(p);
      BlockQueue(k, WaitMode(p), w);
    } else {
      CountsKeepQueue(k, p, sem.(value := sem.value - 1, downs := sem.downs + 1),
                      k.threads[t := ThreadAt(k, t).(mode := Outside)], w);
    }
  }

  lemma OwnerKeepsQueue(k: Kernel, m: nat, owner: Option<Tid>, w: Place)
    requires m < |k.locks| && IsQueue(w)
    ensures QueueAt(WithOwner(k, m, owner), w) == QueueAt(k, w)
  {
  }

  lemma TakeLockQueue(k: Kernel, m: nat, w: Place)
    requires m < |k.locks| && k.running.Some? && IsQueue(w)
    ensures QueueAt(TakeLock(k, m), w) == QueueAt(k, w)
              + (if OnLock(m) == w && k.locks[m].semaphore.value == 0 then [k.running.value] else [])
  {
    hide Down, QueueAt, WithOwner;
    DownQueue(k, OnLock(m), w);
    OwnerKeepsQueue(Down(k, OnLock(m)), m, k.running, w);
  }

  lemma ReleaseQueue(k: Kernel, m: nat, w: Place)
    requires m < |k.locks| && IsQueue(w)
    ensures QueueAt(ReleaseLock(k, m), w) == if OnLock(m) == w then Tail(QueueAt(k, w)) else QueueAt(k, w)
  {
    hide Up, QueueAt, WithOwner;
    OwnerKeepsQueue(k, m, None, w);
    UpQueue(WithOwner(k, m, None), OnLock(m), w);
  }

  lemma WaitQueue(k: Kernel, m: nat, d: nat, w: Place)
    requires Holds(k, m) && d < |k.locks[m].conditions| && IsQueue(w)
    ensures QueueAt(WaitOn(k, m, d), w) ==
            if OnCondition(m, d) == w then QueueAt(k, w) + [k.running.value]
            else if OnLock(m) == w then Tail(QueueAt(k, w))
            else QueueAt(k, w)
  {
    hide Block, ReleaseLock, QueueAt;
    ReleaseQueue(k, m, w);
    BlockQueue(ReleaseLock(k, m), InWait(m, d), w);
  }

  lemma {:induction false} WakeAllQueue(k: Kernel, p: Place, n: nat, w: Place)
    requires p.OnCondition? && n <= |QueueAt(k, p)| && IsQueue(w)
    ensures QueueAt(WakeAll(k, p, n), w) == if p == w then QueueAt(k, p)[n..] else QueueAt(k, w)
    decreases n
  {
    hide Wake, QueueAt;
    if n > 0 {
      WakeQueue(k, p, p);
      WakeQueue(k, p, w);
      WakeAllQueue(Wake(k, p), p, n - 1, w);
    }
  }

  lemma YieldQueue(k: Kernel, w: Place)
    requires k.running.Some? && IsQueue(w)
    ensures QueueAt(YieldCpu(k), w) == QueueAt(k, w)
  {
    if k.ready != [] {
      var k1, th := Take(k, OnCpu), ThreadAt(k, k.running.value).(status := READY);
      assert k1 == k.(running := None);
      PutQueue(k1, k.running.value, th, w);
      var k2 := Put(k1, k.running.value, th);
      assert YieldCpu(k) == Reschedule(k2);
      RescheduleQueue(k2, w);
    }
  }

  lemma FinishQueue(k: Kernel, w: Place)
    requires Enabled(k, Finish) && IsQueue(w)
    ensures QueueAt(Next(k, Finish), w) == QueueAt(k, w)
  {
    hide Reschedule, Take, QueueAt;
    var k1 := k.(running := None, threads := k.threads - {k.running.value});
    CpuTaken(k);
    OwnRecordsOnly(k, k1, w);
    RescheduleQueue(k1, w);
  }

  lemma TestQueue(k: Kernel, a: Action, w: Place)
    requires Enabled(k, a) && (a == Resume || a.P? || a.Acquire?) && IsQueue(w)
    ensures QueueAt(Next(k, a), w) == QueueAfterStep(k, a, w)
  {
    hide Down, TakeLock, QueueAt, Continue, ThreadAt;
    match a
    case P(s) => DownQueue(k, OnSemaphore(s), w);
    case Acquire(m) => TakeLockQueue(k, m, w);
    case Resume => ResumeQueue(k, w);
  }

  lemma ResumeQueue(k: Kernel, w: Place)
    requires Enabled(k, Resume) && IsQueue(w)
    ensures QueueAt(Next(k, Resume), w) == QueueAfterStep(k, Resume, w)
  {
    hide Down, TakeLock, QueueAt, ThreadAt;
    match ThreadAt(k, k.running.value).mode
    case InP(s) => DownQueue(k, OnSemaphore(s), w);
    case InAcquire(m) => TakeLockQueue(k, m, w);
    case InWait(m, d) => TakeLockQueue(k, m, w);
  }

  lemma SchedulingQueue(k: Kernel, a: Action, w: Place)
    requires Enabled(k, a) && (a.Yield? || a.Fork? || a.Finish? || a.Wakeup?) && IsQueue(w)
    ensures QueueAt(Next(k, a), w) == QueueAfterStep(k, a, w)
  {
    hide Dispatch, YieldCpu, Put, Take, QueueAt, Reschedule, Tail;
    match a
    case Yield => YieldQueue(k, w);
    case Fork(t) => PutQueue(k, t, Thread(READY, Outside), w);
    case Finish => FinishQueue(k, w);
    case Wakeup => DispatchQueue(k, w);
  }

  lemma DispatchQueue(k: Kernel, w: Place)
    requires k.running == None && k.ready != [] && IsQueue(w)
    ensures QueueAt(Dispatch(k), w) == QueueAt(k, w)
  {
    hide QueueAt, Dispatch;
    RescheduleQueue(k, w);
  }

  lemma RaiseQueue(k: Kernel, a: Action, w: Place)
    requires Enabled(k, a) && (a.V? || a.HandlerV? || a.Release?) && IsQueue(w)
    ensures QueueAt(Next(k, a), w) == QueueAfterStep(k, a, w)
  {
    hide Up, QueueAt, ReleaseLock, Tail;
    match a
    case V(s) => UpQueue(k, OnSemaphore(s), w);
    case HandlerV(s) => UpQueue(k, OnSemaphore(s), w);
    case Release(m) => ReleaseQueue(k, m, w);
  }

  lemma ConditionIs(k: Kernel, l: nat, c: nat)
    requires Exists(k, OnCondition(l, c))
    ensures QueueAt(k, OnCondition(l, c)) == k.locks[l].conditions[c]
  {
  }

  lemma ConditionQueue(k: Kernel, a: Action, w: Place)
    requires Enabled(k, a) && (a.Wait? || a.Signal? || a.Broadcast?) && IsQueue(w)
    ensures QueueAt(Next(k, a), w) == QueueAfterStep(k, a, w)
  {
    hide WaitOn, Wake, WakeAll, Tail, QueueAt;
    match a
    case Wait(m, d) => WaitQueue(k, m, d, w);
    case Signal(m, d) => WakeQueue(k, OnCondition(m, d), w);
    case Broadcast(m, d) => ConditionIs(k, m, d); WakeAllQueue(k, OnCondition(m, d), |k.locks[m].conditions[d]|, w);
  }

  lemma WaitingAfterStep(k: Kernel, a: Action, p: Place)
    requires Enabled(k, a) && IsQueue(p)
    ensures QueueAt(Next(k, a), p) == QueueAfterStep(k, a, p)
  {
    hide Next, Enabled, QueueAt, QueueAfterStep;
    if a.Wait? || a.Signal? || a.Broadcast? {
      ConditionQueue(k, a, p);
    } else if a.V? || a.HandlerV? || a.Release? {
      RaiseQueue(k, a, p);
    } else if a == Resume || a.P? || a.Acquire? {
      TestQueue(k, a, p);
    } else {
      SchedulingQueue(k, a, p);
    }
  }

  /** Wait gives the lock up and joins the queue of the condition in one step: there is no state in
      which a signaller could hold the lock and miss the waiter. */
  lemma WaitIsAtomic(k: Kernel, l: nat, c: nat)
    requires Inv(k) && Enabled(k, Wait(l, c))
    ensures var k' := Next(k, Wait(l, c));
            && QueueAt(k', OnCondition(l, c)) == QueueAt(k, OnCondition(l, c)) + [k.running.value]
            && l < |k'.locks| && k'.locks[l].owner == None
  {
    hide WaitOn, QueueAt;
    WaitingAfterStep(k, Wait(l, c), OnCondition(l, c));
    Waiting(k, l, c);
    assert Book(Next(k, Wait(l, c)), l).2 == None;
  }

  lemma WokenReady(k: Kernel, p: Place)
    requires !p.OnCpu? && !p.OnReady?
    ensures Wake(k, p).ready == k.ready + (if QueueAt(k, p) == [] then [] else [QueueAt(k, p)[0]])
  {
  }

  /** Broadcast makes every waiter ready, in the order of the queue. */
  lemma {:induction false} AllWokenReady(k: Kernel, p: Place, n: nat)
    requires p.OnCondition? && n <= |QueueAt(k, p)|
    ensures WakeAll(k, p, n).ready == k.ready + QueueAt(k, p)[..n]
    decreases n
  {
    hide Wake, QueueAt;
    if n > 0 {
      var q := QueueAt(k, p);
      WokenReady(k, p);
      WakeQueue(k, p, p);
      AllWokenReady(Wake(k, p), p, n - 1);
      assert q[..n] == [q[0]] + q[1..][..n - 1];
    }
  }

  /** The threads that a step wakes out of the queue at `p`. */
  function Reached(k: Kernel, a: Action, p: Place): seq<Tid> {
    var q := QueueAt(k, p);
    if WakesAll(a, p) then q
    else if WakesFirst(a, p) && q != [] then [q[0]]
    else []
  }

  lemma UpReady(k: Kernel, p: Place)
    requires IsSemaphore(k, p)
    ensures Up(k, p).ready == k.ready + (if QueueAt(k, p) == [] then [] else [QueueAt(k, p)[0]])
  {
    hide Wake, QueueAt;
    WokenReady(k, p);
  }

  /** What a step wakes it makes ready; what the Release of a Wait wakes, Wait may dispatch. */
  lemma ReachedReady(k: Kernel, a: Action, p: Place)
    requires Enabled(k, a) && Reached(k, a, p) != []
    ensures !a.Wait? ==> Next(k, a).ready == k.ready + Reached(k, a, p)
    ensures a.Wait? ==> var t := Reached(k, a, p)[0];
                        Reached(k, a, p) == [t] && (t in Next(k, a).ready || Next(k, a).running == Some(t))
  {
    hide Wake, WakeAll, Up, ReleaseLock, WaitOn, Block, QueueAt, Continue, Down, TakeLock, YieldCpu, Put, Take,
      Dispatch, Reschedule;
    match a
    case V(s) => UpReady(k, p);
    case HandlerV(s) => UpReady(k, p);
    case Release(l) => QueueOfSemaphore(k, p); ReleaseAppends(k, l);
    case Signal(l, c) => WokenReady(k, p);
    case Broadcast(l, c) => ConditionIs(k, l, c); AllWokenReady(k, p, |QueueAt(k, p)|);
    case Wait(l, c) => WaitReady(k, l, c);
    case _ =>
  }

  lemma WaitReady(k: Kernel, l: nat, c: nat)
    requires Holds(k, l) && c < |k.locks[l].conditions| && QueueAt(k, OnLock(l)) != []
    ensures var (k', t) := (WaitOn(k, l, c), QueueAt(k, OnLock(l))[0]); t in k'.ready || k'.running == Some(t)
  {
    hide Block, ReleaseLock;
    QueueOfSemaphore(k, OnLock(l));
    ReleaseAppends(k, l);
    var k1 := ReleaseLock(k, l);
    BlockTakesHead(k1, InWait(l, c));
    assert k1.ready == [k1.ready[0]] + k1.ready[1..];
    assert QueueAt(k, OnLock(l))[0] in k1.ready;
  }

  /** No step wakes thread `t` out of the queue at `p` from state `i` to state `j`. */
  ghost predicate Unreached(states: seq<Kernel>, actions: seq<Action>, p: Place, t: Tid, i: nat, j: nat)
    requires j <= |actions| < |states|
  {
    forall n :: i <= n < j ==> t !in Reached(states[n], actions[n], p)
  }

  lemma QueuedUnlessReached(k: Kernel, a: Action, p: Place, t: Tid)
    requires Enabled(k, a) && IsQueue(p) && t in QueueAt(k, p) && t !in Reached(k, a, p)
    ensures t in QueueAt(Next(k, a), p)
  {
    hide Next, Enabled, QueueAt, Sleeps, WakesFirst, WakesAll;
    WaitingAfterStep(k, a, p);
  }

  /** A thread leaves the queue of a condition only by a signal that finds it at the head, or by a
      broadcast; that of a semaphore or lock only by a V or Release that finds it at the head. */
  lemma OnlySignalsWake(k: Kernel, a: Action, p: Place, t: Tid)
    requires Enabled(k, a) && IsQueue(p)
    requires t in QueueAt(k, p) && t !in QueueAt(Next(k, a), p)
    ensures WakesAll(a, p) || (WakesFirst(a, p) && QueueAt(k, p)[0] == t)
  {
    hide Next, Enabled, QueueAt, Sleeps, WakesFirst, WakesAll;
    WaitingAfterStep(k, a, p);
  }

  /** A thread that sleeps in a queue stays there until a step reaches it. */
  lemma {:induction false} StaysQueued(states: seq<Kernel>, actions: seq<Action>, p: Place, t: Tid, i: nat, j: nat)
    requires Run(states, actions) && i <= j < |states| && IsQueue(p) && t in QueueAt(states[i], p)
    requires Unreached(states, actions, p, t, i, j)
    ensures t in QueueAt(states[j], p)
    decreases j
  {
    hide Initial, Enabled, Next, QueueAt;
    if i < j {
      StaysQueued(states, actions, p, t, i, j - 1);
      QueuedUnlessReached(states[j - 1], actions[j - 1], p, t);
    }
  }

  /** No signal is lost: the caller of Wait is in the queue from the step that gives its lock up to
      the first Signal or Broadcast that reaches it, and that one makes it ready. */
  lemma SignalFindsWaiter(states: seq<Kernel>, actions: seq<Action>, l: nat, c: nat, t: Tid, i: nat, j: nat)
    requires Run(states, actions) && i < j < |actions|
    requires actions[i] == Wait(l, c) && states[i].running == Some(t)
    requires Unreached(states, actions, OnCondition(l, c), t, i + 1, j)
    ensures t in QueueAt(states[j], OnCondition(l, c))
    ensures t in Reached(states[j], actions[j], OnCondition(l, c)) <==>
              actions[j] == Broadcast(l, c)
              || (actions[j] == Signal(l, c) && QueueAt(states[j], OnCondition(l, c))[0] == t)
    ensures t in Reached(states[j], actions[j], OnCondition(l, c)) ==> t in states[j + 1].ready
  {
    hide Initial, Enabled, Next, QueueAt, Inv;
    RunKeepsInv(states, actions, i);
    WaitIsAtomic(states[i], l, c);
    assert t in QueueAt(states[i + 1], OnCondition(l, c));
    StaysQueued(states, actions, OnCondition(l, c), t, i + 1, j);
    if t in Reached(states[j], actions[j], OnCondition(l, c)) {
      ReachedReady(states[j], actions[j], OnCondition(l, c));
    }
  }

  lemma WakersStayAwake(k: Kernel, a: Action, p: Place)
    requires Enabled(k, a)
    ensures !(WakesFirst(a, p) && Sleeps(k, a, p))
  {
  }

  /** How many steps between two states of a run wake the first thread in the queue at `p`. */
  function Wakings(actions: seq<Action>, p: Place, i: nat, j: nat): nat
    requires i <= j <= |actions|
  {
    if i == j then 0 else Wakings(actions, p, i, j - 1) + (if WakesFirst(actions[j - 1], p) then 1 else 0)
  }

  /** First in, first out, at every semaphore, lock and condition: without a Broadcast, the thread at
      position `n` of the queue moves up by one with every V, Release or Signal, and the one number
      `n + 1` wakes it. */
  lemma {:induction false} WokenInOrder(states: seq<Kernel>, actions: seq<Action>, p: Place, i: nat, j: nat, n: nat)
    requires Run(states, actions) && i <= j < |states| && IsQueue(p) && n < |QueueAt(states[i], p)|
    requires forall m :: i <= m < j ==> !WakesAll(actions[m], p)
    ensures var (w, q) := (Wakings(actions, p, i, j), QueueAt(states[j], p));
            w <= n ==> n - w < |q| && q[n - w] == QueueAt(states[i], p)[n]
    ensures i < j && Wakings(actions, p, i, j - 1) == n && Wakings(actions, p, i, j) == n + 1 ==>
              var t := QueueAt(states[i], p)[n];
              t in states[j].ready || (actions[j - 1].Wait? && states[j].running == Some(t))
    decreases j
  {
    hide Initial, Enabled, Next, QueueAt, Sleeps, WakesFirst, WakesAll;
    if i < j {
      WokenInOrder(states, actions, p, i, j - 1, n);
      WaitingAfterStep(states[j - 1], actions[j - 1], p);
      WakersStayAwake(states[j - 1], actions[j - 1], p);
      if Reached(states[j - 1], actions[j - 1], p) != [] { ReachedReady(states[j - 1], actions[j - 1], p); }
    }
  }

  /** No live thread has changed what it waits for. */
  ghost predicate ModesSame(k: Kernel, k': Kernel) {
    forall t :: t in k.threads ==> t in k'.threads && k'.threads[t].mode == k.threads[t].mode
  }

  /** No step but its own changes what a thread waits for. */
  ghost predicate ModesStay(k: Kernel, k': Kernel) {
    forall t :: t in k.threads && t in k'.threads && Some(t) != k.running ==> k'.threads[t].mode == k.threads[t].mode
  }

  lemma SameStay(k: Kernel, k': Kernel)
    requires ModesSame(k, k')
    ensures ModesStay(k, k')
  {
  }

  lemma WakeModes(k: Kernel, p: Place)
    requires !p.OnCpu?
    ensures ModesSame(k, Wake(k, p))
  {
  }

  lemma UpKeepsModes(k: Kernel, p: Place)
    requires IsSemaphore(k, p)
    ensures ModesSame(k, Up(k, p))
  {
    hide Wake;
    WakeModes(k, p);
  }

  lemma DispatchModes(k: Kernel)
    requires k.ready != []
    ensures ModesSame(k, Dispatch(k))
  {
  }

  lemma RescheduleModes(k: Kernel)
    ensures ModesSame(k, Reschedule(k))
  {
    hide Dispatch;
    if k.ready != [] { DispatchModes(k); }
  }

  lemma YieldModes(k: Kernel)
    requires k.running.Some?
    ensures ModesSame(k, YieldCpu(k))
  {
    hide Dispatch;
    if k.ready != [] {
      DispatchModes(Put(Take(k, OnCpu), k.running.value, ThreadAt(k, k.running.value).(status := READY)));
    }
  }

  lemma {:induction false} WakeAllModes(k: Kernel, p: Place, n: nat)
    requires !p.OnCpu?
    ensures ModesSame(k, WakeAll(k, p, n))
    decreases n
  {
    hide Wake;
    if n > 0 {
      WakeModes(k, p);
      WakeAllModes(Wake(k, p), p, n - 1);
    }
  }

  /** The running thread has, or will have, this mode; everybody else's is as before. */
  ghost predicate CallerMode(k: Kernel, k': Kernel, mode: Mode)
    requires k.running.Some?
  {
    ModesStay(k, k') && k.running.value in k'.threads && k'.threads[k.running.value].mode == mode
  }

  lemma CallerModeQueued(k: Kernel, mode: Mode)
    requires k.running.Some? && Exists(k, PlaceOf(Thread(BLOCKED, mode)))
    ensures CallerMode(k, Put(Take(k, OnCpu), k.running.value, Thread(BLOCKED, mode)), mode)
  {
  }

  lemma CallerModeKept(k: Kernel, k1: Kernel, k2: Kernel, mode: Mode)
    requires k.running.Some? && CallerMode(k, k1, mode) && ModesSame(k1, k2) && k1.threads.Keys >= k.threads.Keys
    ensures CallerMode(k, k2, mode)
  {
  }

  lemma BlockModes(k: Kernel, mode: Mode)
    requires k.running.Some? && Exists(k, PlaceOf(Thread(BLOCKED, mode)))
    ensures CallerMode(k, Block(k, mode), mode)
  {
    hide CallerMode, ModesSame, Reschedule;
    var k1 := Put(Take(k, OnCpu), k.running.value, Thread(BLOCKED, mode));
    CallerModeQueued(k, mode);
    RescheduleModes(k1);
    CallerModeKept(k, k1, Reschedule(k1), mode);
  }

  lemma DownModes(k: Kernel, p: Place)
    requires k.running.Some? && IsSemaphore(k, p)
    ensures CallerMode(k, Down(k, p), if SemaphoreAt(k, p).value == 0 then WaitMode(p) else Outside)
  {
    hide Block, PlaceOf;
    PlaceOfWaiter(p);
    if SemaphoreAt(k, p).value == 0 { BlockModes(k, WaitMode(p)); }
  }

  lemma ReleaseModes(k: Kernel, l: nat)
    requires l < |k.locks|
    ensures ModesSame(k, ReleaseLock(k, l))
  {
    hide Up;
    UpKeepsModes(WithOwner(k, l, None), OnLock(l));
  }

  lemma WaitModes(k: Kernel, l: nat, c: nat)
    requires Holds(k, l) && c < |k.locks[l].conditions|
    ensures ModesStay(k, WaitOn(k, l, c))
  {
    hide Block, ReleaseLock;
    ReleaseModes(k, l);
    BlockModes(ReleaseLock(k, l), InWait(l, c));
  }

  lemma TakeLockModes(k: Kernel, l: nat)
    requires k.running.Some? && l < |k.locks|
    ensures CallerMode(k, TakeLock(k, l), if k.locks[l].semaphore.value == 0 then InAcquire(l) else Outside)
  {
    hide Down;
    DownModes(k, OnLock(l));
  }

  lemma ResumeModes(k: Kernel)
    requires Enabled(k, Resume)
    ensures ModesStay(k, Next(k, Resume))
  {
    hide Down, TakeLock, ModesStay;
    match ThreadAt(k, k.running.value).mode
    case InP(s) => DownModes(k, OnSemaphore(s));
    case InAcquire(l) => TakeLockModes(k, l);
    case InWait(l, c) => TakeLockModes(k, l);
  }

  lemma ForkModes(k: Kernel, t: Tid)
    requires t !in k.threads
    ensures ModesSame(k, Put(k, t, Thread(READY, Outside)))
  {
  }

  lemma FinishModes(k: Kernel)
    requires Enabled(k, Finish)
    ensures ModesStay(k, Next(k, Finish))
  {
    hide Reschedule;
    RescheduleModes(Take(k, OnCpu).(threads := k.threads - {k.running.value}));
  }

  /** Except for its own steps, what a thread waits for stays as it is. */
  lemma StepModes(k: Kernel, a: Action)
    requires Enabled(k, a)
    ensures ModesStay(k, Next(k, a))
  {
    hide ModesStay, ModesSame, Down, TakeLock, WaitOn, Up, Wake, WakeAll, Put, Take, Reschedule, Continue, Dispatch,
      YieldCpu;
    var k' := Next(k, a);
    match a
    case P(s) => DownModes(k, OnSemaphore(s));
    case V(s) => UpKeepsModes(k, OnSemaphore(s)); SameStay(k, k');
    case Acquire(l) => TakeLockModes(k, l);
    case Release(l) => ReleaseModes(k, l); SameStay(k, k');
    case Wait(l, c) => WaitModes(k, l, c);
    case Signal(l, c) => WakeModes(k, OnCondition(l, c)); SameStay(k, k');
    case Broadcast(l, c) => WakeAllModes(k, OnCondition(l, c), |k.locks[l].conditions[c]|); SameStay(k, k');
    case Yield => YieldModes(k); SameStay(k, k');
    case Fork(t) => ForkModes(k, t); SameStay(k, k');
    case Finish => FinishModes(k);
    case Resume => ResumeModes(k);
    case HandlerV(s) => UpKeepsModes(k, OnSemaphore(s)); SameStay(k, k');
    case Wakeup => DispatchModes(k); SameStay(k, k');
  }

  /** Past the lock's semaphore the caller owns the lock, and nobody did before. */
  lemma TakenByCaller(k: Kernel, l: nat)
    requires LocksOk(k) && k.running.Some? && l < |k.locks| && k.locks[l].semaphore.value != 0
    ensures l < |TakeLock(k, l).locks| && TakeLock(k, l).locks[l].owner == k.running && k.locks[l].owner == None
  {
    hide Down;
    assert LockOk(k.locks[l]);
  }

  lemma ResumeLeavesAsOwner(k: Kernel, l: nat)
    requires LocksOk(k) && Enabled(k, Resume)
    requires var (k', t) := (Next(k, Resume), k.running.value);
             t in k.threads && t in k'.threads && Wants(k.threads[t].mode, l) && !Wants(k'.threads[t].mode, l)
    ensures l < |Next(k, Resume).locks| && Next(k, Resume).locks[l].owner == k.running && k.locks[l].owner == None
  {
    hide TakeLock, LocksOk, ModesStay, Down;
    TakeLockModes(k, l);
    if k.locks[l].semaphore.value != 0 { TakenByCaller(k, l); }
  }

  /** Whoever leaves Acquire or Wait owns the lock, and nobody did before. */
  lemma LeavesAsOwner(k: Kernel, a: Action, t: Tid, l: nat)
    requires Inv(k) && Enabled(k, a) && t in k.threads && t in Next(k, a).threads
    requires Wants(k.threads[t].mode, l) && !Wants(Next(k, a).threads[t].mode, l)
    ensures l < |Next(k, a).locks| && Next(k, a).locks[l].owner == Some(t) && k.locks[l].owner == None
  {
    hide Placed, SemaphoresOk, LocksOk, ModesOk, Next;
    StepModes(k, a);
    if a.HandlerV? {
      HandlerModes(k, a.s);
    } else {
      assert k.running == Some(t) && a == Resume;
      ResumeLeavesAsOwner(k, l);
    }
  }

  lemma HandlerModes(k: Kernel, s: nat)
    requires s < |k.semaphores|
    ensures ModesSame(k, Next(k, HandlerV(s)))
  {
    hide Up;
    UpKeepsModes(k, OnSemaphore(s));
  }
}
