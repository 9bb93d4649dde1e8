/** What every step of the kernel keeps: each live thread is in exactly one place, no wake-up is
    lost, and a lock has an owner exactly when its semaphore is taken. */
module KernelSafety {
  import opened FiniteSets
  import opened Kernels

  // ---- The invariant ----

  /** The place of the semaphore a thread in this mode is trying to take. */
  function Target(mode: Mode): Place {
    match mode
    case InP(s) => OnSemaphore(s)
    case InAcquire(l) => OnLock(l)
    case Outside => Nowhere
    case InWait(l, c) => Nowhere
  }

  predicate IsWoken(th: Thread, p: Place) {
    th.status != BLOCKED && Target(th.mode) == p
  }

  /** The threads woken inside P on this semaphore that have not tested the value again yet. */
  ghost function Woken(threads: map<Tid, Thread>, p: Place): set<Tid> {
    set t | t in threads && IsWoken(threads[t], p)
  }

  /** The counts balance, and no wake-up is lost: while threads sleep, every unit of the value is
      spoken for by a woken thread. */
  ghost predicate SemaphoreOk(k: Kernel, p: Place)
    requires IsSemaphore(k, p)
  {
    var sem := SemaphoreAt(k, p);
    && sem.value == sem.initial + sem.ups - sem.downs
    && sem.value >= 0
    && (sem.queue != [] ==> sem.value <= |Woken(k.threads, p)|)
  }

  ghost predicate SemaphoresOk(k: Kernel) {
    forall p :: IsSemaphore(k, p) ==> SemaphoreOk(k, p)
  }

  /** Free with value 1 and no owner, or taken with value 0 and exactly one owner. */
  ghost predicate LockOk(lock: Lock) {
    && lock.semaphore.initial == 1
    && ((lock.semaphore.value == 1 && lock.owner.None?) || (lock.semaphore.value == 0 && lock.owner.Some?))
  }

  ghost predicate LocksOk(k: Kernel) {
    forall l :: 0 <= l < |k.locks| ==> LockOk(k.locks[l])
  }

  /** Every thread inside a synchronisation routine is in one of an object that exists. */
  ghost predicate ModesOk(k: Kernel) {
    forall t :: t in k.threads && k.threads[t].mode != Outside ==> WaitsFor(k, k.threads[t].mode)
  }

  ghost predicate Inv(k: Kernel) {
    Placed(k) && SemaphoresOk(k) && LocksOk(k) && ModesOk(k)
  }

  /** At start-up one thread runs, every queue is empty, and the locks are free. */
  ghost predicate Initial(k: Kernel) {
    && k.running.Some? && k.threads == map[k.running.value := Thread(RUNNING, Outside)]
    && (forall p :: p != OnCpu ==> QueueAt(k, p) == [])
    && (forall p :: IsSemaphore(k, p) ==> FreshSemaphore(SemaphoreAt(k, p)))
    && (forall l :: 0 <= l < |k.locks| ==> k.locks[l].semaphore.initial == 1 && k.locks[l].owner == None)
  }

  predicate FreshSemaphore(sem: Semaphore) {
    sem.initial >= 0 && sem.value == sem.initial && sem.ups == 0 && sem.downs == 0
  }

  lemma InitialInv(k: Kernel)
    requires Initial(k)
    ensures Inv(k)
  {
    forall l | 0 <= l < |k.locks|
      ensures LockOk(k.locks[l])
    {
      assert IsSemaphore(k, OnLock(l)) && FreshSemaphore(SemaphoreAt(k, OnLock(l)));
    }
    forall p
      ensures Agrees(k, p)
    {
      if p == OnCpu { assert QueueAt(k, p) == [k.running.value]; }
    }
    forall p | IsSemaphore(k, p)
      ensures SemaphoreOk(k, p)
    {
      assert QueueAt(k, p) == SemaphoreAt(k, p).queue;
    }
  }

  // ---- One thread moves ----

  /** What a semaphore counts. */
  function Counts(k: Kernel, p: Place): Semaphore
    requires IsSemaphore(k, p)
  {
    SemaphoreAt(k, p).(queue := [])
  }

  /** Only queues and the threads' records may differ. */
  ghost predicate SameData(k: Kernel, k': Kernel) {
    && SameShape(k, k')
    && (forall p :: IsSemaphore(k, p) ==> IsSemaphore(k', p) && Counts(k', p) == Counts(k, p))
    && (forall l :: 0 <= l < |k.locks| ==> k'.locks[l].owner == k.locks[l].owner)
  }

  /** Thread `t` left the head of the queue at `p` for the tail of the one at `q`. */
  ghost predicate Moved(k: Kernel, k': Kernel, t: Tid, th: Thread, p: Place, q: Place) {
    && QueueAt(k, p) != [] && QueueAt(k, p)[0] == t
    && (forall p' :: QueueAt(k', p') == (if p' == p then QueueAt(k, p)[1..] else QueueAt(k, p'))
                                        + (if p' == q then [t] else []))
    && k'.threads == k.threads[t := th]
    && SameData(k, k')
  }

  lemma QueueKeepsData(k: Kernel, p: Place, q: seq<Tid>)
    requires Exists(k, p)
    ensures SameData(k, WithQueue(k, p, q))
  {
  }

  lemma Moving(k: Kernel, p: Place, th: Thread)
    requires Placed(k) && QueueAt(k, p) != [] && Exists(k, PlaceOf(th))
    requires PlaceOf(th) == OnCpu ==> k.running == None
    ensures var t := QueueAt(k, p)[0]; var k' := Put(Take(k, p), t, th);
            Placed(k') && Moved(k, k', t, th, p, PlaceOf(th))
  {
    var t, k1 := QueueAt(k, p)[0], Take(k, p);
    TakeKeepsPlaced(k, p);
    QueueKeepsData(k, p, QueueAt(k, p)[1..]);
    assert PlaceOf(th) == OnCpu ==> QueueAt(k, OnCpu) == [] && QueueAt(k1, OnCpu) == [];
    assert PlaceOf(th) == OnCpu ==> k1.running == None;
    hide QueueAt, PlaceOf, Exists, WithQueue;
    PutKeepsPlaced(k1, t, th);
    QueueKeepsData(k1, PlaceOf(th), QueueAt(k1, PlaceOf(th)) + [t]);
    DataWithThreads(WithQueue(k1, PlaceOf(th), QueueAt(k1, PlaceOf(th)) + [t]), Put(k1, t, th));
    hide Take, Put;
    SameDataTransitive(k, k1, WithQueue(k1, PlaceOf(th), QueueAt(k1, PlaceOf(th)) + [t]));
    SameDataTransitive(k, WithQueue(k1, PlaceOf(th), QueueAt(k1, PlaceOf(th)) + [t]), Put(k1, t, th));
  }

  lemma DataWithThreads(k: Kernel, k': Kernel)
    requires k' == k.(threads := k'.threads)
    ensures SameData(k, k')
  {
  }

  lemma SameDataTransitive(k: Kernel, k1: Kernel, k2: Kernel)
    requires SameData(k, k1) && SameData(k1, k2)
    ensures SameData(k, k2)
  {
  }

  // ---- Semaphores ----

  lemma WokenAfter(threads: map<Tid, Thread>, t: Tid, th: Thread, p: Place)
    requires t in threads
    ensures Woken(threads[t := th], p) == if IsWoken(th, p) then Woken(threads, p) + {t} else Woken(threads, p) - {t}
  {
  }

  lemma QueueOfSemaphore(k: Kernel, p: Place)
    requires IsSemaphore(k, p)
    ensures SemaphoreAt(k, p).queue == QueueAt(k, p)
  {
  }

  /** A semaphore stays sound when nobody joins its queue and no woken thread is lost, or when its
      value is 0. */
  lemma SemaphoreKept(k: Kernel, k': Kernel, p: Place)
    requires IsSemaphore(k, p) && IsSemaphore(k', p) && Counts(k', p) == Counts(k, p) && SemaphoreOk(k, p)
    requires SemaphoreAt(k, p).value == 0
          || (Woken(k.threads, p) <= Woken(k'.threads, p) && (QueueAt(k', p) != [] ==> QueueAt(k, p) != []))
    ensures SemaphoreOk(k', p)
  {
    QueueOfSemaphore(k, p);
    QueueOfSemaphore(k', p);
    hide QueueAt;
    SubsetSize(Woken(k.threads, p), Woken(k'.threads, p));
  }

  /** The running thread that gives the processor up forgets no wake-up but its own. */
  ghost predicate Harmless(k: Kernel, t: Tid, th: Thread, q: Place)
    requires t in k.threads
  {
    forall p :: IsSemaphore(k, p) && (p == q || (IsWoken(k.threads[t], p) && !IsWoken(th, p))) ==>
      SemaphoreAt(k, p).value == 0
  }

  lemma MoveKeepsSemaphores(k: Kernel, k': Kernel, t: Tid, th: Thread, p: Place, q: Place)
    requires SemaphoresOk(k) && t in k.threads && Moved(k, k', t, th, p, q) && Harmless(k, t, th, q)
    ensures SemaphoresOk(k')
  {
    hide QueueAt;
    forall p' | IsSemaphore(k', p')
      ensures SemaphoreOk(k', p')
    {
      assert IsSemaphore(k, p') by { SameExists(k, k', p'); }
      WokenAfter(k.threads, t, th, p');
      assert QueueAt(k', p') != [] ==> p' == q || QueueAt(k, p') != [];
      SemaphoreKept(k, k', p');
    }
  }

  lemma SameExists(k: Kernel, k': Kernel, p: Place)
    requires SameShape(k, k')
    ensures Exists(k', p) <==> Exists(k, p)
  {
  }

  // ---- The pieces of a step ----

  /** The part of the invariant that the moves alone keep. */
  ghost predicate Steady(k: Kernel) {
    Placed(k) && SemaphoresOk(k) && ModesOk(k)
  }

  lemma AtPlace(k: Kernel, p: Place, t: Tid)
    requires Placed(k)
    ensures t in QueueAt(k, p) <==> t in k.threads && PlaceOf(k.threads[t]) == p
  {
    assert Agrees(k, p);
  }

  lemma ModesKept(k: Kernel, k': Kernel, t: Tid, th: Thread)
    requires ModesOk(k) && SameShape(k, k') && k'.threads == k.threads[t := th]
    requires th.mode != Outside ==> WaitsFor(k, th.mode)
    ensures ModesOk(k')
  {
  }

  /** FindNextToRun and Run. */
  lemma Dispatching(k: Kernel)
    requires Steady(k) && k.running == None && k.ready != []
    ensures Steady(Dispatch(k))
    ensures k.ready[0] in k.threads
    ensures Moved(k, Dispatch(k), k.ready[0], k.threads[k.ready[0]].(status := RUNNING), OnReady, OnCpu)
  {
    var t := k.ready[0];
    AtPlace(k, OnReady, t);
    var th := k.threads[t].(status := RUNNING);
    Moving(k, OnReady, th);
    hide QueueAt, Placed;
    MoveKeepsSemaphores(k, Dispatch(k), t, th, OnReady, OnCpu);
    ModesKept(k, Dispatch(k), t, th);
  }

  /** Waking the head of the queue of a semaphore or condition. */
  lemma Waking(k: Kernel, p: Place)
    requires Steady(k) && p != OnCpu && p != OnReady && QueueAt(k, p) != []
    ensures Steady(Wake(k, p))
    ensures QueueAt(k, p)[0] in k.threads && PlaceOf(k.threads[QueueAt(k, p)[0]]) == p
    ensures var t := QueueAt(k, p)[0]; Moved(k, Wake(k, p), t, k.threads[t].(status := READY), p, OnReady)
  {
    var t := QueueAt(k, p)[0];
    AtPlace(k, p, t);
    var th := k.threads[t].(status := READY);
    Moving(k, p, th);
    hide QueueAt, Placed;
    MoveKeepsSemaphores(k, Wake(k, p), t, th, p, OnReady);
    ModesKept(k, Wake(k, p), t, th);
  }

  lemma Rescheduling(k: Kernel)
    requires Steady(k) && k.running == None
    ensures Steady(Reschedule(k)) && SameData(k, Reschedule(k))
  {
    if k.ready != [] { Dispatching(k); }
  }

  lemma RunningIsLive(k: Kernel)
    requires Placed(k) && k.running.Some?
    ensures k.running.value in k.threads && k.threads[k.running.value].status == RUNNING
  {
    AtPlace(k, OnCpu, k.running.value);
  }

  /** The running thread leaves the processor for the ready list or a waiting queue. */
  lemma Leaving(k: Kernel, th: Thread)
    requires Steady(k) && k.running.Some? && k.running.value in k.threads
    requires Exists(k, PlaceOf(th)) && PlaceOf(th) != OnCpu
    requires Harmless(k, k.running.value, th, PlaceOf(th)) && (th.mode != Outside ==> WaitsFor(k, th.mode))
    ensures var k' := Put(Take(k, OnCpu), k.running.value, th);
            Steady(k') && k'.running == None && Moved(k, k', k.running.value, th, OnCpu, PlaceOf(th))
  {
    var t, k' := k.running.value, Put(Take(k, OnCpu), k.running.value, th);
    assert QueueAt(k, OnCpu) == [t];
    Moving(k, OnCpu, th);
    assert QueueAt(k', OnCpu) == [];
    hide QueueAt, Placed;
    MoveKeepsSemaphores(k, k', t, th, OnCpu, PlaceOf(th));
    ModesKept(k, k', t, th);
  }

  lemma Blocking(k: Kernel, mode: Mode)
    requires Steady(k) && k.running.Some? && k.running.value in k.threads
    requires Exists(k, PlaceOf(Thread(BLOCKED, mode))) && WaitsFor(k, mode)
    requires Harmless(k, k.running.value, Thread(BLOCKED, mode), PlaceOf(Thread(BLOCKED, mode)))
    ensures Steady(Block(k, mode)) && SameData(k, Block(k, mode))
  {
    hide QueueAt, Placed, Harmless;
    Leaving(k, Thread(BLOCKED, mode));
    hide Take, Put, Reschedule;
    var k1 := Put(Take(k, OnCpu), k.running.value, Thread(BLOCKED, mode));
    Rescheduling(k1);
    SameDataTransitive(k, k1, Reschedule(k1));
  }

  // ---- P and V ----

  /** A semaphore's counts after some more V's and completed P's. */
  function Recounted(sem: Semaphore, ups: nat, downs: nat): Semaphore {
    sem.(value := sem.value + ups - downs, ups := sem.ups + ups, downs := sem.downs + downs)
  }

  function Expected(k: Kernel, p: Place, ups: nat, downs: nat, q: Place): Semaphore
    requires IsSemaphore(k, q)
  {
    if q == p then Recounted(Counts(k, q), ups, downs) else Counts(k, q)
  }

  /** The semaphore at `p` counts `ups` more V's and `downs` more completed P's; nothing else counts. */
  ghost predicate Counted(k: Kernel, k': Kernel, p: Place, ups: nat, downs: nat) {
    && SameShape(k, k')
    && (forall q :: IsSemaphore(k, q) ==> IsSemaphore(k', q) && Counts(k', q) == Expected(k, p, ups, downs, q))
    && (forall l :: 0 <= l < |k.locks| ==> k'.locks[l].owner == k.locks[l].owner)
  }

  /** Changing the counts of one semaphore disturbs nothing else. */
  lemma Recounting(k: Kernel, p: Place, ups: nat, downs: nat)
    requires Steady(k) && IsSemaphore(k, p)
    ensures var k' := WithSemaphore(k, p, Recounted(SemaphoreAt(k, p), ups, downs));
            && Counted(k, k', p, ups, downs) && Placed(k') && ModesOk(k') && k'.threads == k.threads
            && k'.running == k.running && k'.ready == k.ready
            && (forall q :: QueueAt(k', q) == QueueAt(k, q))
            && SemaphoreAt(k', p) == Recounted(SemaphoreAt(k, p), ups, downs)
            && (forall q :: IsSemaphore(k', q) && q != p ==> SemaphoreOk(k', q))
  {
    var k' := WithSemaphore(k, p, Recounted(SemaphoreAt(k, p), ups, downs));
    assert forall q :: QueueAt(k', q) == QueueAt(k, q);
    SameQueuesPlaced(k, k');
    hide QueueAt, Agrees;
    forall q | IsSemaphore(k', q) && q != p
      ensures SemaphoreOk(k', q)
    {
      assert IsSemaphore(k, q) && SemaphoreAt(k', q) == SemaphoreAt(k, q) && SemaphoreOk(k, q);
    }
  }

  lemma SameQueuesPlaced(k: Kernel, k': Kernel)
    requires Placed(k) && (forall q :: QueueAt(k', q) == QueueAt(k, q)) && k'.threads.Keys == k.threads.Keys
    requires forall t :: t in k.threads ==> k'.threads[t].status == k.threads[t].status
    requires forall t :: t in k.threads && k.threads[t].status == BLOCKED ==> k'.threads[t].mode == k.threads[t].mode
    ensures Placed(k')
  {
    hide QueueAt;
    forall p
      ensures Agrees(k', p)
    {
      assert Agrees(k, p);
    }
  }

  lemma WakingAny(k: Kernel, p: Place)
    requires Steady(k) && p != OnCpu && p != OnReady
    ensures Steady(Wake(k, p)) && SameData(k, Wake(k, p))
  {
    if QueueAt(k, p) != [] { Waking(k, p); }
  }

  lemma Upping(k: Kernel, p: Place)
    requires Steady(k) && IsSemaphore(k, p)
    ensures Steady(Up(k, p)) && Counted(k, Up(k, p), p, 1, 0)
  {
    var k1 := Wake(k, p);
    WakingAny(k, p);
    hide Placed, Wake, WithSemaphore, SameShape, QueueAt, SemaphoreOk, ModesOk;
    assert IsSemaphore(k1, p) by { SameExists(k, k1, p); }
    Recounting(k1, p, 1, 0);
    WakeSurplus(k, p);
    UppedValue(k, k1, Up(k, p), p);
    CountedAfterMove(k, k1, Up(k, p), p, 1, 0);
  }

  lemma UppedValue(k: Kernel, k1: Kernel, k2: Kernel, p: Place)
    requires SemaphoresOk(k) && IsSemaphore(k, p) && SameData(k, k1) && IsSemaphore(k1, p) && IsSemaphore(k2, p)
    requires QueueAt(k1, p) != [] ==> SemaphoreAt(k, p).value + 1 <= |Woken(k1.threads, p)|
    requires SemaphoreAt(k2, p) == Recounted(SemaphoreAt(k1, p), 1, 0) && k2.threads == k1.threads
    ensures SemaphoreOk(k2, p)
  {
    QueueOfSemaphore(k1, p);
    hide QueueAt, SameShape;
    assert SemaphoreOk(k, p) && Counts(k1, p) == Counts(k, p);
  }

  lemma CountedAfterMove(k: Kernel, k1: Kernel, k2: Kernel, p: Place, ups: nat, downs: nat)
    requires SameData(k, k1) && Counted(k1, k2, p, ups, downs)
    ensures Counted(k, k2, p, ups, downs)
  {
  }

  /** A wake-up leaves one woken thread more than the value before it, if threads still sleep. */
  lemma WakeSurplus(k: Kernel, p: Place)
    requires Steady(k) && IsSemaphore(k, p)
    ensures var k1 := Wake(k, p);
            IsSemaphore(k1, p) && SemaphoreAt(k1, p).value == SemaphoreAt(k, p).value
            && (QueueAt(k1, p) != [] ==> SemaphoreAt(k, p).value + 1 <= |Woken(k1.threads, p)|)
  {
    hide QueueAt, Wake, Placed, SemaphoresOk, ModesOk, SameShape, Woken, Counts, SemaphoreOk;
    var k1 := Wake(k, p);
    if QueueAt(k, p) != [] {
      Waking(k, p);
      SameCountsAt(k, k1, p);
      SoundAt(k, p);
      OneMoreWoken(k, p, QueueAt(k, p)[0]);
    } else {
      NobodyToWake(k, p);
    }
  }

  lemma NobodyToWake(k: Kernel, p: Place)
    requires !p.OnCpu? && QueueAt(k, p) == []
    ensures Wake(k, p) == k
  {
  }

  lemma SameCountsAt(k: Kernel, k': Kernel, p: Place)
    requires SameData(k, k') && IsSemaphore(k, p)
    ensures IsSemaphore(k', p) && SemaphoreAt(k', p).value == SemaphoreAt(k, p).value
  {
    assert Counts(k', p) == Counts(k, p);
  }

  lemma OneMoreWoken(k: Kernel, p: Place, t: Tid)
    requires IsSemaphore(k, p) && SemaphoreOk(k, p) && QueueAt(k, p) != []
    requires t in k.threads && PlaceOf(k.threads[t]) == p
    ensures SemaphoreAt(k, p).value + 1 <= |Woken(k.threads[t := k.threads[t].(status := READY)], p)|
  {
    QueueOfSemaphore(k, p);
    hide QueueAt;
    WokenAfter(k.threads, t, k.threads[t].(status := READY), p);
    assert t !in Woken(k.threads, p);
  }

  lemma SoundAt(k: Kernel, p: Place)
    requires SemaphoresOk(k) && IsSemaphore(k, p)
    ensures SemaphoreOk(k, p)
  {
  }

  // ---- P ----

  /** The running thread either is outside or waits for the semaphore at `p`. */
  predicate MayTake(k: Kernel, p: Place) {
    k.running.Some? && k.running.value in k.threads
    && (var target := Target(k.threads[k.running.value].mode); target == Nowhere || target == p)
  }

  /** The test fails: the thread sleeps on the semaphore. */
  lemma Sleeping(k: Kernel, p: Place)
    requires Steady(k) && IsSemaphore(k, p) && MayTake(k, p) && SemaphoreAt(k, p).value == 0
    ensures Steady(Down(k, p)) && SameData(k, Down(k, p))
  {
    hide SemaphoresOk;
    Blocking(k, WaitMode(p));
  }

  /** The test succeeds: the thread takes one unit and leaves P. */
  lemma Taking(k: Kernel, p: Place)
    requires Steady(k) && IsSemaphore(k, p) && MayTake(k, p) && SemaphoreAt(k, p).value != 0
    ensures Steady(Down(k, p)) && Counted(k, Down(k, p), p, 0, 1)
    ensures Down(k, p).running == k.running
    ensures Down(k, p).threads == k.threads[k.running.value := Thread(RUNNING, Outside)]
  {
    RunningIsLive(k);
    var t, k' := k.running.value, Down(k, p);
    Recounting(k, p, 0, 1);
    var k1 := WithSemaphore(k, p, Recounted(SemaphoreAt(k, p), 0, 1));
    assert k' == k1.(threads := k.threads[t := Thread(RUNNING, Outside)]);
    assert forall q :: QueueAt(k', q) == QueueAt(k1, q);
    SameQueuesPlaced(k1, k');
    DataWithThreads(k1, k');
    TakenValues(k, k', p);
    hide Placed, QueueAt, WithSemaphore, SemaphoreOk;
  }

  lemma TakenValues(k: Kernel, k': Kernel, p: Place)
    requires SemaphoresOk(k) && IsSemaphore(k, p) && MayTake(k, p) && SemaphoreAt(k, p).value != 0
    requires k'.threads == k.threads[k.running.value := Thread(RUNNING, Outside)]
    requires Counted(k, k', p, 0, 1) && forall q :: QueueAt(k', q) == QueueAt(k, q)
    ensures SemaphoresOk(k')
  {
    hide SameShape, MayTake, QueueAt, Counts, SemaphoreOk;
    forall q | IsSemaphore(k', q)
      ensures SemaphoreOk(k', q)
    {
      SameExists(k, k', q);
      assert SemaphoreOk(k, q) && Counts(k', q) == Expected(k, p, 0, 1, q);
      TakenValueAt(k, k', p, q);
    }
  }

  lemma TakenValueAt(k: Kernel, k': Kernel, p: Place, q: Place)
    requires IsSemaphore(k, p) && MayTake(k, p) && SemaphoreAt(k, p).value != 0
    requires k'.threads == k.threads[k.running.value := Thread(RUNNING, Outside)]
    requires IsSemaphore(k, q) && IsSemaphore(k', q) && SemaphoreOk(k, q) && QueueAt(k', q) == QueueAt(k, q)
    requires Counts(k', q) == Expected(k, p, 0, 1, q)
    ensures SemaphoreOk(k', q)
  {
    hide QueueAt;
    QueueOfSemaphore(k, q);
    QueueOfSemaphore(k', q);
    WokenAfter(k.threads, k.running.value, Thread(RUNNING, Outside), q);
  }

  lemma Downing(k: Kernel, p: Place)
    requires Steady(k) && IsSemaphore(k, p) && MayTake(k, p)
    ensures Steady(Down(k, p))
    ensures SemaphoreAt(k, p).value == 0 ==> SameData(k, Down(k, p))
    ensures SemaphoreAt(k, p).value != 0 ==> Counted(k, Down(k, p), p, 0, 1)
  {
    hide Down;
    if SemaphoreAt(k, p).value == 0 { Sleeping(k, p); } else { Taking(k, p); }
  }

  // ---- Locks ----

  /** What a lock's books say: the value of its semaphore, and its owner. */
  function Book(k: Kernel, l: nat): (int, int, Option<Tid>)
    requires l < |k.locks|
  {
    (k.locks[l].semaphore.initial, k.locks[l].semaphore.value, k.locks[l].owner)
  }

  /** The books of lock `l` become `value` and `owner`, those of every other lock stay. */
  ghost predicate Booked(k: Kernel, k': Kernel, l: nat, value: int, owner: Option<Tid>) {
    && |k'.locks| == |k.locks|
    && (forall i :: 0 <= i < |k.locks| ==> Book(k', i) == if i == l then (Book(k, i).0, value, owner) else Book(k, i))
  }

  lemma BooksSame(k: Kernel, k': Kernel)
    requires SameData(k, k')
    ensures Booked(k, k', |k.locks|, 0, None)
  {
    forall i | 0 <= i < |k.locks|
      ensures Book(k', i) == Book(k, i)
    {
      assert IsSemaphore(k, OnLock(i)) && Counts(k', OnLock(i)) == Counts(k, OnLock(i));
    }
  }

  lemma BooksCounted(k: Kernel, k': Kernel, p: Place, ups: nat, downs: nat)
    requires Counted(k, k', p, ups, downs)
    ensures !p.OnLock? ==> Booked(k, k', |k.locks|, 0, None)
    ensures Exists(k, p) && p.OnLock? ==>
              Booked(k, k', p.l, k.locks[p.l].semaphore.value + ups - downs, k.locks[p.l].owner)
  {
    forall i | 0 <= i < |k.locks|
      ensures IsSemaphore(k, OnLock(i)) && Counts(k', OnLock(i)) == Expected(k, p, ups, downs, OnLock(i))
      ensures Counts(k, OnLock(i)).value == k.locks[i].semaphore.value
    {
    }
  }

  lemma BookedOk(k: Kernel, k': Kernel, l: nat, value: int, owner: Option<Tid>)
    requires LocksOk(k) && Booked(k, k', l, value, owner)
    requires l < |k.locks| ==> (value == 1 && owner.None?) || (value == 0 && owner.Some?)
    ensures LocksOk(k')
  {
    forall i | 0 <= i < |k'.locks|
      ensures LockOk(k'.locks[i])
    {
      assert LockOk(k.locks[i]);
      assert Book(k', i) == if i == l then (Book(k, i).0, value, owner) else Book(k, i);
    }
  }

  lemma OwnerEffect(k: Kernel, l: nat, owner: Option<Tid>)
    requires Steady(k) && l < |k.locks|
    ensures var k' := WithOwner(k, l, owner);
            && Steady(k') && SameShape(k, k') && k'.threads == k.threads && k'.running == k.running
            && (forall q :: QueueAt(k', q) == QueueAt(k, q))
            && (forall q :: IsSemaphore(k, q) ==> IsSemaphore(k', q) && SemaphoreAt(k', q) == SemaphoreAt(k, q))
            && (forall i :: 0 <= i < |k.locks| ==> k'.locks[i].owner == if i == l then owner else k.locks[i].owner)
  {
    var k' := WithOwner(k, l, owner);
    assert forall q :: QueueAt(k', q) == QueueAt(k, q);
    SameQueuesPlaced(k, k');
    hide QueueAt, Agrees;
    forall q | IsSemaphore(k', q)
      ensures SemaphoreOk(k', q)
    {
      assert IsSemaphore(k, q) && SemaphoreAt(k', q) == SemaphoreAt(k, q) && SemaphoreOk(k, q);
    }
  }

  /** Past P, the caller becomes the owner of a lock that had none. */
  lemma TakingLock(k: Kernel, l: nat)
    requires Inv(k) && l < |k.locks| && MayTake(k, OnLock(l))
    ensures Inv(TakeLock(k, l))
    ensures k.locks[l].owner.None? ==> Booked(k, TakeLock(k, l), l, 0, k.running)
    ensures k.locks[l].owner.Some? ==> SameData(k, TakeLock(k, l))
  {
    var k1 := Down(k, OnLock(l));
    Downing(k, OnLock(l));
    assert LockOk(k.locks[l]);
    hide Down, Steady, MayTake;
    if k.locks[l].owner.None? {
      BooksCounted(k, k1, OnLock(l), 0, 1);
      OwnerEffect(k1, l, k.running);
      BooksWithOwner(k, k1, l, 0, k.running);
      BookedOk(k, TakeLock(k, l), l, 0, k.running);
    } else {
      BooksSame(k, k1);
      BookedOk(k, k1, |k.locks|, 0, None);
    }
    SteadyInv(TakeLock(k, l));
  }

  lemma BooksWithOwner(k: Kernel, k1: Kernel, l: nat, value: int, owner: Option<Tid>)
    requires l < |k.locks| && Booked(k, k1, l, value, k.locks[l].owner)
    ensures Booked(k, WithOwner(k1, l, owner), l, value, owner)
  {
    var k2 := WithOwner(k1, l, owner);
    forall i | 0 <= i < |k.locks|
      ensures Book(k2, i) == if i == l then (Book(k, i).0, value, owner) else Book(k, i)
    {
      assert Book(k1, i) == if i == l then (Book(k, i).0, value, k.locks[l].owner) else Book(k, i);
    }
  }

  lemma SteadyInv(k: Kernel)
    requires Steady(k) && LocksOk(k)
    ensures Inv(k)
  {
    hide Placed, SemaphoresOk, LocksOk, ModesOk;
  }

  /** Release frees the lock: no owner, value 1. */
  lemma ReleasingLock(k: Kernel, l: nat)
    requires Inv(k) && Holds(k, l)
    ensures Inv(ReleaseLock(k, l)) && Booked(k, ReleaseLock(k, l), l, 1, None)
  {
    var k1, k2 := WithOwner(k, l, None), ReleaseLock(k, l);
    OwnerEffect(k, l, None);
    assert LockOk(k.locks[l]);
    hide Up, Steady, Holds;
    Upping(k1, OnLock(l));
    BooksCounted(k1, k2, OnLock(l), 1, 0);
    assert Booked(k, k2, l, 1, None) by {
      forall i | 0 <= i < |k.locks|
        ensures Book(k2, i) == if i == l then (Book(k, i).0, 1, None) else Book(k, i)
      {
        assert Book(k2, i) == if i == l then (Book(k1, i).0, 1, None) else Book(k1, i);
      }
    }
    BookedOk(k, k2, l, 1, None);
    SteadyInv(k2);
  }

  /** V does not disturb the running thread. */
  lemma UpKeepsRunning(k: Kernel, p: Place)
    requires Placed(k) && IsSemaphore(k, p) && RunsFreely(k)
    ensures Up(k, p).running == k.running && RunsFreely(Up(k, p))
  {
    RunningIsLive(k);
    if QueueAt(k, p) != [] { AtPlace(k, p, QueueAt(k, p)[0]); }
  }

  /** A thread outside the synchronisation routines forgets no wake-up. */
  lemma FreeIsHarmless(k: Kernel, th: Thread, q: Place)
    requires RunsFreely(k) && k.running.value in k.threads && !q.OnSemaphore? && !q.OnLock?
    ensures Harmless(k, k.running.value, th, q)
  {
  }

  lemma Waiting(k: Kernel, l: nat, c: nat)
    requires Inv(k) && Holds(k, l) && c < |k.locks[l].conditions|
    ensures Inv(WaitOn(k, l, c)) && Booked(k, WaitOn(k, l, c), l, 1, None)
  {
    hide ReleaseLock, Placed, SemaphoresOk, ModesOk, LocksOk, Harmless, Block, Booked, SameData, Steady;
    var k1, k2 := ReleaseLock(k, l), WaitOn(k, l, c);
    ReleasingLock(k, l);
    ReleasedRuns(k, l);
    FreeIsHarmless(k1, Thread(BLOCKED, InWait(l, c)), OnCondition(l, c));
    InvSteady(k1);
    Blocking(k1, InWait(l, c));
    DataKeepsInv(k1, k2);
    BookedThenSame(k, k1, k2, l);
  }

  lemma InvSteady(k: Kernel)
    requires Inv(k)
    ensures Steady(k) && LocksOk(k)
  {
  }

  /** The caller of Release goes on, live and outside the synchronisation routines. */
  lemma ReleasedRuns(k: Kernel, l: nat)
    requires Inv(k) && Holds(k, l) && Placed(ReleaseLock(k, l))
    ensures var k1 := ReleaseLock(k, l); RunsFreely(k1) && k1.running.value in k1.threads
  {
    hide Up;
    OwnerEffect(k, l, None);
    UpKeepsRunning(WithOwner(k, l, None), OnLock(l));
    RunningIsLive(ReleaseLock(k, l));
  }

  lemma BookedThenSame(k: Kernel, k1: Kernel, k2: Kernel, l: nat)
    requires Booked(k, k1, l, 1, None) && SameData(k1, k2)
    ensures Booked(k, k2, l, 1, None)
  {
    BooksSame(k1, k2);
    hide SameData;
    forall i | 0 <= i < |k.locks|
      ensures Book(k2, i) == if i == l then (Book(k, i).0, 1, None) else Book(k, i)
    {
      assert Book(k2, i) == Book(k1, i);
    }
  }

  lemma DataKeepsInv(k: Kernel, k': Kernel)
    requires LocksOk(k) && Steady(k') && SameData(k, k')
    ensures Inv(k')
  {
    hide Steady;
    BooksSame(k, k');
    BookedOk(k, k', |k.locks|, 0, None);
    SteadyInv(k');
  }

  lemma CountedKeepsInv(k: Kernel, k': Kernel, p: Place, ups: nat, downs: nat)
    requires LocksOk(k) && Steady(k') && !p.OnLock? && Counted(k, k', p, ups, downs)
    ensures Inv(k')
  {
    hide Steady;
    BooksCounted(k, k', p, ups, downs);
    BookedOk(k, k', |k.locks|, 0, None);
    SteadyInv(k');
  }

  lemma {:induction false} WakingAll(k: Kernel, p: Place, n: nat)
    requires Steady(k) && p != OnCpu && p != OnReady
    ensures Steady(WakeAll(k, p, n)) && SameData(k, WakeAll(k, p, n))
    decreases n
  {
    hide Steady, Wake, SameData, QueueAt;
    if n > 0 {
      WakingAny(k, p);
      WakingAll(Wake(k, p), p, n - 1);
      SameDataTransitive(k, Wake(k, p), WakeAll(k, p, n));
    } else {
      DataWithThreads(k, k);
    }
  }

  lemma Yielding(k: Kernel)
    requires Steady(k) && RunsFreely(k)
    ensures Steady(YieldCpu(k)) && SameData(k, YieldCpu(k))
  {
    RunningIsLive(k);
    if k.ready != [] {
      var th := Thread(READY, Outside);
      FreeIsHarmless(k, th, OnReady);
      Leaving(k, th);
      var k1 := Put(Take(k, OnCpu), k.running.value, th);
      assert QueueAt(k1, OnReady) == k1.ready;
      hide Put, Take, Harmless, Steady;
      assert k1.ready != [] by { assert QueueAt(k, OnReady) == k.ready; }
      Dispatching(k1);
      SameDataTransitive(k, k1, YieldCpu(k));
    }
  }

  lemma Forking(k: Kernel, t: Tid)
    requires Steady(k) && t !in k.threads
    ensures var k' := Put(k, t, Thread(READY, Outside)); Steady(k') && SameData(k, k')
  {
    var th := Thread(READY, Outside);
    var k' := Put(k, t, th);
    assert k.(threads := k.threads - {t}) == k by { assert k.threads - {t} == k.threads; }
    PutKeepsPlaced(k, t, th);
    QueueKeepsData(k, OnReady, k.ready + [t]);
    hide QueueAt, Placed;
    forall p | IsSemaphore(k', p)
      ensures SemaphoreOk(k', p)
    {
      SameExists(k, k', p);
      assert Woken(k.threads, p) <= Woken(k'.threads, p);
      SemaphoreKept(k, k', p);
    }
  }

  lemma Finishing(k: Kernel)
    requires Steady(k) && RunsFreely(k)
    ensures var k1 := Take(k, OnCpu).(threads := k.threads - {k.running.value});
            Steady(k1) && k1.running == None && SameData(k, k1)
  {
    var t, k1 := k.running.value, Take(k, OnCpu).(threads := k.threads - {k.running.value});
    RunningIsLive(k);
    assert QueueAt(k, OnCpu) == [t];
    TakeKeepsPlaced(k, OnCpu);
    QueueKeepsData(k, OnCpu, []);
    assert forall q :: QueueAt(k1, q) == QueueAt(Take(k, OnCpu), q);
    hide QueueAt, Placed;
    forall p | IsSemaphore(k1, p)
      ensures SemaphoreOk(k1, p)
    {
      SameExists(k, k1, p);
      assert Woken(k.threads, p) == Woken(k1.threads, p);
      SemaphoreKept(k, k1, p);
    }
  }

  // ---- Every step ----

  lemma StepKeepsInv(k: Kernel, a: Action)
    requires Inv(k) && Enabled(k, a)
    ensures Inv(Next(k, a))
  {
    hide Placed, SemaphoresOk, LocksOk, ModesOk, Down, Up, TakeLock, ReleaseLock, Wake, WakeAll, YieldCpu, Put,
      Dispatch, Reschedule, Take, SameData, Counted, MayTake;
    var k' := Next(k, a);
    match a
    case P(s) => FreeMayTake(k, OnSemaphore(s)); PassingKeepsInv(k, s);
    case V(s) => Upping(k, OnSemaphore(s)); CountedKeepsInv(k, k', OnSemaphore(s), 1, 0);
    case Acquire(l) => FreeMayTake(k, OnLock(l)); TakingLock(k, l);
    case Release(l) => ReleasingLock(k, l);
    case Wait(l, c) => Waiting(k, l, c);
    case Signal(l, c) => WakingAny(k, OnCondition(l, c)); DataKeepsInv(k, k');
    case Broadcast(l, c) =>
      WakingAll(k, OnCondition(l, c), |k.locks[l].conditions[c]|);
      DataKeepsInv(k, k');
    case Yield => Yielding(k); DataKeepsInv(k, k');
    case Fork(t) => Forking(k, t); DataKeepsInv(k, k');
    case Finish => FinishKeepsInv(k);
    case Resume => ResumeKeepsInv(k);
    case HandlerV(s) => Upping(k, OnSemaphore(s)); CountedKeepsInv(k, k', OnSemaphore(s), 1, 0);
    case Wakeup => Dispatching(k); DispatchData(k); DataKeepsInv(k, k');
  }

  lemma FreeMayTake(k: Kernel, p: Place)
    requires Inv(k) && RunsFreely(k)
    ensures MayTake(k, p)
  {
    RunningIsLive(k);
  }

  lemma FinishKeepsInv(k: Kernel)
    requires Inv(k) && Enabled(k, Finish)
    ensures Inv(Next(k, Finish))
  {
    hide Placed, SemaphoresOk, LocksOk, ModesOk, Take, Reschedule, SameData;
    Finishing(k);
    var k1 := Take(k, OnCpu).(threads := k.threads - {k.running.value});
    Rescheduling(k1);
    SameDataTransitive(k, k1, Next(k, Finish));
    DataKeepsInv(k, Next(k, Finish));
  }

  lemma ResumeKeepsInv(k: Kernel)
    requires Inv(k) && Enabled(k, Resume)
    ensures Inv(Next(k, Resume))
  {
    RunningIsLive(k);
    hide Inv, Down, TakeLock;
    match k.threads[k.running.value].mode
    case InP(s) => PassingKeepsInv(k, s);
    case InAcquire(l) => TakingLock(k, l);
    case InWait(l, c) => TakingLock(k, l);
  }

  lemma DispatchData(k: Kernel)
    requires Steady(k) && k.running == None && k.ready != []
    ensures SameData(k, Dispatch(k))
  {
    Dispatching(k);
  }

  lemma PassingKeepsInv(k: Kernel, s: nat)
    requires Inv(k) && s < |k.semaphores| && MayTake(k, OnSemaphore(s))
    ensures Inv(Down(k, OnSemaphore(s)))
  {
    var p := OnSemaphore(s);
    Downing(k, p);
    hide Down, Steady, MayTake, SameData, Counted;
    if SemaphoreAt(k, p).value == 0 {
      DataKeepsInv(k, Down(k, p));
    } else {
      CountedKeepsInv(k, Down(k, p), p, 0, 1);
    }
  }

  // ---- Runs ----

  /** The states of a run, and the action that leads from each to the next. */
  ghost predicate Run(states: seq<Kernel>, actions: seq<Action>) {
    && |states| == |actions| + 1 && Initial(states[0])
    && forall i :: 0 <= i < |actions| ==> Enabled(states[i], actions[i]) && states[i + 1] == Next(states[i], actions[i])
  }

  /** Every reachable state satisfies the invariant: threads are in exactly one place each, values
      balance, no wake-up is lost, and locks exclude. */
  lemma {:induction false} RunKeepsInv(states: seq<Kernel>, actions: seq<Action>, n: nat)
    requires Run(states, actions) && n < |states|
    ensures Inv(states[n])
  {
    hide Initial, Inv, Enabled, Next;
    if n == 0 {
      InitialInv(states[0]);
    } else {
      RunKeepsInv(states, actions, n - 1);
      StepKeepsInv(states[n - 1], actions[n - 1]);
    }
  }
}
