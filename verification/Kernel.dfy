/** Threads, the ready list, semaphores, locks and conditions (threads/thread.cc, scheduler.cc and
    synch.cc) as a state machine: every stretch of code that runs with interrupts off is one step. */
module Kernels {

  type Tid = nat

  datatype Option<T> = None | Some(value: T)

  datatype Status = READY | RUNNING | BLOCKED

  /** Where a thread is inside the synchronisation routines: nowhere, in the loop of P on a
      semaphore or on the semaphore of a lock, or in Wait before it takes the lock again. */
  datatype Mode = Outside | InP(s: nat) | InAcquire(l: nat) | InWait(l: nat, c: nat)

  datatype Thread = Thread(status: Status, mode: Mode)

  /** A semaphore, with the counts of its V's and its completed P's. */
  datatype Semaphore = Semaphore(initial: int, value: int, queue: seq<Tid>, ups: nat, downs: nat)

  /** A lock with the conditions that are used under it, each a queue of threads. */
  datatype Lock = Lock(semaphore: Semaphore, owner: Option<Tid>, conditions: seq<seq<Tid>>)

  datatype Kernel = Kernel(
    threads: map<Tid, Thread>,
    running: Option<Tid>,
    ready: seq<Tid>,
    semaphores: seq<Semaphore>,
    locks: seq<Lock>)

  // ---- Queues ----

  /** The places a live thread can be in. */
  datatype Place = OnCpu | OnReady | OnSemaphore(s: nat) | OnLock(l: nat) | OnCondition(l: nat, c: nat) | Nowhere

  /** The place the thread's own status and mode speak of. */
  function PlaceOf(th: Thread): Place {
    match th.status
    case RUNNING => OnCpu
    case READY => OnReady
    case BLOCKED =>
      match th.mode
      case Outside => Nowhere
      case InP(s) => OnSemaphore(s)
      case InAcquire(l) => OnLock(l)
      case InWait(l, c) => OnCondition(l, c)
  }

  predicate Exists(k: Kernel, p: Place) {
    match p
    case OnCpu => true
    case OnReady => true
    case OnSemaphore(s) => s < |k.semaphores|
    case OnLock(l) => l < |k.locks|
    case OnCondition(l, c) => l < |k.locks| && c < |k.locks[l].conditions|
    case Nowhere => false
  }

  /** The threads queued at a place, in order. */
  function QueueAt(k: Kernel, p: Place): (q: seq<Tid>)
    ensures !Exists(k, p) ==> q == []
  {
    if !Exists(k, p) then [] else
    match p
    case OnCpu => if k.running.Some? then [k.running.value] else []
    case OnReady => k.ready
    case OnSemaphore(s) => k.semaphores[s].queue
    case OnLock(l) => k.locks[l].semaphore.queue
    case OnCondition(l, c) => k.locks[l].conditions[c]
    case Nowhere => []
  }

  /** The same semaphores, locks and conditions. */
  predicate SameShape(k: Kernel, k': Kernel) {
    && |k'.semaphores| == |k.semaphores| && |k'.locks| == |k.locks|
    && forall l :: 0 <= l < |k.locks| ==> |k'.locks[l].conditions| == |k.locks[l].conditions|
  }

  predicate SameOwners(k: Kernel, k': Kernel) {
    |k'.locks| == |k.locks| && forall l :: 0 <= l < |k.locks| ==> k'.locks[l].owner == k.locks[l].owner
  }

  predicate SameValues(k: Kernel, k': Kernel) {
    && |k'.semaphores| == |k.semaphores|
    && forall s :: 0 <= s < |k.semaphores| ==> k'.semaphores[s].value == k.semaphores[s].value
  }

  function WithQueue(k: Kernel, p: Place, q: seq<Tid>): (k': Kernel)
    requires Exists(k, p)
    ensures SameShape(k, k') && SameOwners(k, k') && SameValues(k, k') && (!p.OnCpu? ==> k'.running == k.running)
  {
    match p
    case OnCpu => k.(running := if q == [] then None else Some(q[0]))
    case OnReady => k.(ready := q)
    case OnSemaphore(s) => k.(semaphores := k.semaphores[s := k.semaphores[s].(queue := q)])
    case OnLock(l) => k.(locks := k.locks[l := k.locks[l].(semaphore := k.locks[l].semaphore.(queue := q))])
    case OnCondition(l, c) => k.(locks := k.locks[l := k.locks[l].(conditions := k.locks[l].conditions[c := q])])
  }

  lemma QueueAfter(k: Kernel, p: Place, q: seq<Tid>, p': Place)
    requires Exists(k, p) && (p.OnCpu? ==> |q| <= 1)
    ensures Exists(WithQueue(k, p, q), p') <==> Exists(k, p')
    ensures QueueAt(WithQueue(k, p, q), p') == if p' == p then q else QueueAt(k, p')
    ensures WithQueue(k, p, q).threads == k.threads
  {
  }

  ghost predicate NoDuplicates(q: seq<Tid>) {
    forall i, j :: 0 <= i < j < |q| ==> q[i] != q[j]
  }

  /** The queue at `p` holds, once each, exactly the threads that say they are there. */
  ghost predicate Agrees(k: Kernel, p: Place) {
    && NoDuplicates(QueueAt(k, p))
    && (forall t :: t in QueueAt(k, p) <==> t in k.threads && PlaceOf(k.threads[t]) == p)
  }

  /** Every live thread is in exactly one place, and its status agrees with it. */
  ghost predicate Placed(k: Kernel) {
    forall p :: Agrees(k, p)
  }

  /** The same while thread `t` is on its way from one place to another. */
  ghost predicate PlacedBut(k: Kernel, t: Tid) {
    forall p :: Agrees(k.(threads := k.threads - {t}), p)
  }

  // ---- Moving a thread ----

  /** Removes the thread at the head of a queue. */
  function Take(k: Kernel, p: Place): (k': Kernel)
    requires QueueAt(k, p) != []
    ensures SameShape(k, k') && SameOwners(k, k') && SameValues(k, k') && (!p.OnCpu? ==> k'.running == k.running)
  {
    WithQueue(k, p, QueueAt(k, p)[1..])
  }

  /** Appends a thread to the queue it belongs to. */
  function Put(k: Kernel, t: Tid, th: Thread): (k': Kernel)
    requires Exists(k, PlaceOf(th))
    ensures SameShape(k, k') && SameOwners(k, k') && SameValues(k, k')
    ensures !PlaceOf(th).OnCpu? ==> k'.running == k.running
  {
    WithQueue(k, PlaceOf(th), QueueAt(k, PlaceOf(th)) + [t]).(threads := k.threads[t := th])
  }

  lemma TakeKeepsPlaced(k: Kernel, p: Place)
    requires Placed(k) && QueueAt(k, p) != []
    ensures PlacedBut(Take(k, p), QueueAt(k, p)[0])
    ensures forall p' :: Exists(Take(k, p), p') <==> Exists(k, p')
    ensures forall p' :: QueueAt(Take(k, p), p') == if p' == p then QueueAt(k, p)[1..] else QueueAt(k, p')
    ensures Take(k, p).threads == k.threads
  {
    hide WithQueue, QueueAt, PlaceOf;
    var q, k' := QueueAt(k, p), Take(k, p);
    assert Agrees(k, p);
    assert q[0] in q;
    forall p'
      ensures Exists(k', p') <==> Exists(k, p')
      ensures QueueAt(k', p') == if p' == p then q[1..] else QueueAt(k, p')
      ensures k'.threads == k.threads
    {
      CpuHoldsOne(k);
      QueueAfter(k, p, q[1..], p');
    }
    var k'' := k'.(threads := k'.threads - {q[0]});
    forall p'
      ensures Agrees(k'', p')
    {
      assert QueueAt(k'', p') == QueueAt(k', p') by { QueuesOnly(k'', k', p'); }
      assert Agrees(k, p');
    }
  }

  lemma CpuHoldsOne(k: Kernel)
    ensures |QueueAt(k, OnCpu)| <= 1
  {
  }

  lemma IdleCpu(k: Kernel)
    requires k.running == None
    ensures QueueAt(k, OnCpu) == []
  {
  }

  /** Queues do not depend on the threads' own records. */
  lemma QueuesOnly(k: Kernel, k': Kernel, p: Place)
    requires k' == k.(threads := k'.threads)
    ensures QueueAt(k', p) == QueueAt(k, p) && (Exists(k', p) <==> Exists(k, p))
  {
  }

  lemma PutKeepsPlaced(k: Kernel, t: Tid, th: Thread)
    requires PlacedBut(k, t) && Exists(k, PlaceOf(th)) && (PlaceOf(th) == OnCpu ==> k.running == None)
    ensures Placed(Put(k, t, th))
    ensures forall p :: Exists(Put(k, t, th), p) <==> Exists(k, p)
    ensures forall p :: QueueAt(Put(k, t, th), p) == QueueAt(k, p) + (if p == PlaceOf(th) then [t] else [])
    ensures Put(k, t, th).threads == k.threads[t := th]
  {
    hide WithQueue, QueueAt, PlaceOf, Exists;
    var k0, k' := k.(threads := k.threads - {t}), Put(k, t, th);
    var k1 := WithQueue(k, PlaceOf(th), QueueAt(k, PlaceOf(th)) + [t]);
    if PlaceOf(th) == OnCpu { IdleCpu(k); }
    forall p
      ensures Exists(k', p) <==> Exists(k, p)
      ensures QueueAt(k', p) == QueueAt(k, p) + (if p == PlaceOf(th) then [t] else [])
      ensures Agrees(k', p)
    {
      QueueAfter(k, PlaceOf(th), QueueAt(k, PlaceOf(th)) + [t], p);
      QueuesOnly(k1, k', p);
      QueuesOnly(k, k0, p);
      assert Agrees(k0, p);
    }
  }

  // ---- The interrupts-off regions ----

  function ThreadAt(k: Kernel, t: Tid): Thread {
    if t in k.threads then k.threads[t] else Thread(READY, Outside)
  }

  /** Run(FindNextToRun()): the head of the ready list gets the processor. */
  function Dispatch(k: Kernel): (k': Kernel)
    requires k.ready != []
    ensures SameShape(k, k') && SameOwners(k, k') && SameValues(k, k')
  {
    Put(Take(k, OnReady), k.ready[0], ThreadAt(k, k.ready[0]).(status := RUNNING))
  }

  /** The loop of Sleep, once the caller has left the processor: with nobody ready the machine idles. */
  function Reschedule(k: Kernel): (k': Kernel)
    ensures SameShape(k, k') && SameOwners(k, k') && SameValues(k, k')
  {
    if k.ready == [] then k else Dispatch(k)
  }

  /** Append to the queue that `mode` names, then Sleep. */
  function Block(k: Kernel, mode: Mode): (k': Kernel)
    requires k.running.Some? && Exists(k, PlaceOf(Thread(BLOCKED, mode)))
    ensures SameShape(k, k') && SameOwners(k, k') && SameValues(k, k')
  {
    Reschedule(Put(Take(k, OnCpu), k.running.value, Thread(BLOCKED, mode)))
  }

  /** Moves the head of a queue, if there is one, to the ready list. */
  function Wake(k: Kernel, p: Place): (k': Kernel)
    requires !p.OnCpu?
    ensures SameShape(k, k') && SameOwners(k, k') && SameValues(k, k') && k'.running == k.running
  {
    if QueueAt(k, p) == [] then k
    else Put(Take(k, p), QueueAt(k, p)[0], ThreadAt(k, QueueAt(k, p)[0]).(status := READY))
  }

  function WakeAll(k: Kernel, p: Place, n: nat): (k': Kernel)
    requires !p.OnCpu?
    ensures SameShape(k, k') && SameOwners(k, k') && SameValues(k, k') && k'.running == k.running
    decreases n
  {
    if n == 0 then k else WakeAll(Wake(k, p), p, n - 1)
  }

  predicate IsSemaphore(k: Kernel, p: Place) {
    Exists(k, p) && (p.OnSemaphore? || p.OnLock?)
  }

  function SemaphoreAt(k: Kernel, p: Place): Semaphore
    requires IsSemaphore(k, p)
  {
    if p.OnSemaphore? then k.semaphores[p.s] else k.locks[p.l].semaphore
  }

  function WithSemaphore(k: Kernel, p: Place, sem: Semaphore): Kernel
    requires IsSemaphore(k, p)
  {
    if p.OnSemaphore? then k.(semaphores := k.semaphores[p.s := sem])
    else k.(locks := k.locks[p.l := k.locks[p.l].(semaphore := sem)])
  }

  /** V: wakes the first waiter, if any, and increments the value. */
  function Up(k: Kernel, p: Place): (k': Kernel)
    requires IsSemaphore(k, p)
    ensures SameShape(k, k') && SameOwners(k, k') && k'.running == k.running
  {
    var k1 := Wake(k, p);
    var sem := SemaphoreAt(k1, p);
    WithSemaphore(k1, p, sem.(value := sem.value + 1, ups := sem.ups + 1))
  }

  /** The mode of a thread that waits for the semaphore at `p`. */
  function WaitMode(p: Place): Mode
    requires p.OnSemaphore? || p.OnLock?
  {
    if p.OnSemaphore? then InP(p.s) else InAcquire(p.l)
  }

  /** One test of the value in P by the running thread: it sleeps or takes one unit and returns. */
  function Down(k: Kernel, p: Place): (k': Kernel)
    requires IsSemaphore(k, p) && k.running.Some?
    ensures SameShape(k, k') && SameOwners(k, k')
  {
    var sem := SemaphoreAt(k, p);
    if sem.value == 0 then Block(k, WaitMode(p))
    else
      var t := k.running.value;
      WithSemaphore(k, p, sem.(value := sem.value - 1, downs := sem.downs + 1))
        .(threads := k.threads[t := ThreadAt(k, t).(mode := Outside)])
  }

  function WithOwner(k: Kernel, l: nat, owner: Option<Tid>): (k': Kernel)
    requires l < |k.locks|
    ensures SameShape(k, k')
  {
    k.(locks := k.locks[l := k.locks[l].(owner := owner)])
  }

  /** Acquire, from one test of the value on: the thread that gets past P becomes the owner. */
  function TakeLock(k: Kernel, l: nat): (k': Kernel)
    requires l < |k.locks| && k.running.Some?
    ensures SameShape(k, k')
  {
    if k.locks[l].semaphore.value == 0 then Down(k, OnLock(l)) else WithOwner(Down(k, OnLock(l)), l, k.running)
  }

  function ReleaseLock(k: Kernel, l: nat): (k': Kernel)
    requires l < |k.locks|
    ensures SameShape(k, k') && k'.running == k.running
  {
    Up(WithOwner(k, l, None), OnLock(l))
  }

  // ---- Steps ----

  datatype Action =
    | P(s: nat)
    | V(s: nat)
    | Acquire(l: nat)
    | Release(l: nat)
    | Wait(l: nat, c: nat)
    | Signal(l: nat, c: nat)
    | Broadcast(l: nat, c: nat)
    | Yield
    | Fork(t: Tid)
    | Finish
    | Resume              // the running thread, woken inside P, Acquire or Wait, goes on
    | HandlerV(s: nat)    // an interrupt handler calls V
    | Wakeup              // the idle loop of Sleep finds a ready thread

  /** The running thread runs code of its own, outside the synchronisation routines. */
  predicate RunsFreely(k: Kernel) {
    k.running.Some? && ThreadAt(k, k.running.value).mode == Outside
  }

  /** The assertion at the head of Release, Wait, Signal and Broadcast. */
  predicate Holds(k: Kernel, l: nat) {
    RunsFreely(k) && l < |k.locks| && k.locks[l].owner == k.running
  }

  predicate Enabled(k: Kernel, a: Action) {
    match a
    case P(s) => RunsFreely(k) && s < |k.semaphores|
    case V(s) => RunsFreely(k) && s < |k.semaphores|
    case Acquire(l) => RunsFreely(k) && l < |k.locks|
    case Release(l) => Holds(k, l)
    case Wait(l, c) => Holds(k, l) && c < |k.locks[l].conditions|
    case Signal(l, c) => Holds(k, l) && c < |k.locks[l].conditions|
    case Broadcast(l, c) => Holds(k, l) && c < |k.locks[l].conditions|
    case Yield => RunsFreely(k)
    case Fork(t) => RunsFreely(k) && t !in k.threads
    case Finish => RunsFreely(k)
    case Resume => k.running.Some? && WaitsFor(k, ThreadAt(k, k.running.value).mode)
    case HandlerV(s) => s < |k.semaphores|
    case Wakeup => k.running.None? && k.ready != []
  }

  /** The mode is that of a thread that still has to take a semaphore or lock of the kernel. */
  predicate WaitsFor(k: Kernel, mode: Mode) {
    match mode
    case Outside => false
    case InP(s) => s < |k.semaphores|
    case InAcquire(l) => l < |k.locks|
    case InWait(l, c) => l < |k.locks|
  }

  function Next(k: Kernel, a: Action): (k': Kernel)
    requires Enabled(k, a)
    ensures SameShape(k, k')
  {
    match a
    case P(s) => Down(k, OnSemaphore(s))
    case V(s) => Up(k, OnSemaphore(s))
    case Acquire(l) => TakeLock(k, l)
    case Release(l) => ReleaseLock(k, l)
    case Wait(l, c) => WaitOn(k, l, c)
    case Signal(l, c) => Wake(k, OnCondition(l, c))
    case Broadcast(l, c) => WakeAll(k, OnCondition(l, c), |k.locks[l].conditions[c]|)
    case Yield => YieldCpu(k)
    case Fork(t) => Put(k, t, Thread(READY, Outside))
    case Finish => Reschedule(Take(k, OnCpu).(threads := k.threads - {k.running.value}))
    case Resume => Continue(k)
    case HandlerV(s) => Up(k, OnSemaphore(s))
    case Wakeup => Dispatch(k)
  }

  /** Wait up to its Sleep: gives the lock up and joins the queue of the condition. */
  function WaitOn(k: Kernel, l: nat, c: nat): (k': Kernel)
    requires Holds(k, l) && c < |k.locks[l].conditions|
    ensures SameShape(k, k')
  {
    Block(ReleaseLock(k, l), InWait(l, c))
  }

  function YieldCpu(k: Kernel): (k': Kernel)
    requires k.running.Some?
    ensures SameShape(k, k') && SameOwners(k, k') && SameValues(k, k')
  {
    if k.ready == [] then k
    else
      Dispatch(Put(Take(k, OnCpu), k.running.value, ThreadAt(k, k.running.value).(status := READY)))
  }

  function Continue(k: Kernel): (k': Kernel)
    requires k.running.Some? && WaitsFor(k, ThreadAt(k, k.running.value).mode)
    ensures SameShape(k, k')
  {
    match ThreadAt(k, k.running.value).mode
    case Outside => k
    case InP(s) => Down(k, OnSemaphore(s))
    case InAcquire(l) => TakeLock(k, l)
    case InWait(l, c) => TakeLock(k, l)
  }
}
