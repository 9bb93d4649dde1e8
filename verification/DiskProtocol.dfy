/** The synchronous disk over the asynchronous device (filesys/synchdisk.cc over machine/disk.cc): a
    lock admits one request at a time, and its caller waits on a semaphore for the interrupt. */
module DiskProtocol {
  import opened Sectors
  import opened Kernels
  import opened KernelSafety
  import opened Monitors

  datatype Request = ReadSector(sector: SectorNumber) | WriteSector(sector: SectorNumber, data: Sector)

  /** Where a thread is in ReadSector or WriteSector: with the lock, before the request is issued; in
      the P that waits for request number `id`; or past it. `data` is the caller's buffer. */
  datatype Pc =
    | Asking(request: Request)
    | Waiting(request: Request, data: Sector, id: nat)
    | Served(request: Request, data: Sector, id: nat)

  /** The device with its contents, the threads inside, the requests issued and completed so far, and
      the log of all sectors ever written. */
  datatype DiskState = DiskState(
    active: bool,
    image: Image,
    pc: map<Tid, Pc>,
    issued: nat,
    completed: nat,
    formatted: Image,
    log: seq<Request>)

  /** What a log of writes makes of a disk. */
  function Replay(formatted: Image, log: seq<Request>): Image {
    if log == [] then formatted
    else
      var image := Replay(formatted, log[..|log| - 1]);
      match log[|log| - 1]
      case WriteSector(sector, data) => image[sector := data]
      case ReadSector(_) => image
  }

  /** ReadRequest or WriteRequest: the transfer takes place at once, the interrupt comes later. */
  function Issue(d: DiskState, request: Request): DiskState {
    d.(active := true,
       issued := d.issued + 1,
       image := if request.WriteSector? then d.image[request.sector := request.data] else d.image,
       log := d.log + [request])
  }

  /** The buffer of the caller after the transfer. */
  function Transfer(d: DiskState, request: Request): Sector {
    if request.WriteSector? then request.data else d.image[request.sector]
  }

  /** The test of the semaphore by thread `t`, with the request before it if it is not out yet. The
      plain code before P belongs to its first test. */
  ghost predicate Tested(d: DiskState, t: Tid, passed: bool, d': DiskState) {
    t in d.pc &&
    match d.pc[t]
    case Asking(request) =>
      var data := Transfer(d, request);
      var next := if passed then Served(request, data, d.issued) else Waiting(request, data, d.issued);
      d' == Issue(d, request).(pc := d.pc[t := next])
    case Waiting(request, data, id) =>
      d' == if passed then d.(pc := d.pc[t := Served(request, data, id)]) else d
    case Served(_, _, _) => false
  }

  /** The lock: a thread that gets it has called ReadSector or WriteSector, and gives it up when done. */
  ghost predicate Locked(d: DiskState, e: Event, d': DiskState) {
    match e
    case Elsewhere => d' == d
    case Grant(t) => t !in d.pc && t in d'.pc && d'.pc[t].Asking? && d' == d.(pc := d.pc[t := d'.pc[t]])
    case Leave(t) => t in d.pc && d.pc[t].Served? && d' == d.(pc := d.pc - {t})
    case _ => false
  }

  /** A step of the kernel as the disk sees it: an event `e` of its lock and one, `f`, of its
      semaphore, which only the device's interrupt raises, when a request is active. */
  ghost predicate Step(d: DiskState, e: Event, f: SemaphoreEvent, d': DiskState) {
    match f
    case Raised => d.active && d' == d.(active := false, completed := d.completed + 1)
    case Slept(t) => Tested(d, t, false, d')
    case Passed(t) => Tested(d, t, true, d')
    case Quiet => Locked(d, e, d')
  }

  /** Any thread outside may call ReadSector or WriteSector for any sector, as it gets the lock. */
  lemma MayAsk(d: DiskState, t: Tid, request: Request)
    ensures t !in d.pc ==> Step(d, Grant(t), Quiet, d.(pc := d.pc[t := Asking(request)]))
  {
  }

  // ---- The invariant ----

  /** Nothing is under way, or one request is: still active, or completed with its V not consumed. */
  ghost predicate Matched(d: DiskState, owner: Option<Tid>, value: int) {
    if owner.Some? && owner.value in d.pc && d.pc[owner.value].Waiting? then
      && d.issued == d.pc[owner.value].id + 1
      && d.completed == d.issued - (if d.active then 1 else 0)
      && value == (if d.active then 0 else 1)
    else !d.active && value == 0 && d.completed == d.issued
  }

  /** A caller whose request has been issued holds what its sector holds. */
  ghost predicate Delivered(d: DiskState, t: Tid)
    requires t in d.pc
  {
    match d.pc[t]
    case Asking(_) => true
    case Waiting(request, data, _) => data == d.image[request.sector] && (request.WriteSector? ==> data == request.data)
    case Served(request, data, _) => data == d.image[request.sector] && (request.WriteSector? ==> data == request.data)
  }

  ghost predicate Inv(m: Monitor, value: int, d: DiskState) {
    && (forall t :: t in d.pc <==> m.owner == Some(t))
    && Matched(d, m.owner, value)
    && (forall t :: t in d.pc ==> Delivered(d, t))
    && d.image == Replay(d.formatted, d.log)
  }

  lemma IssueReplays(d: DiskState, request: Request)
    requires d.image == Replay(d.formatted, d.log)
    ensures Issue(d, request).image == Replay(d.formatted, d.log + [request])
  {
    assert (d.log + [request])[..|d.log|] == d.log;
  }

  lemma StepKeepsInv(m: Monitor, value: int, d: DiskState, e: Event, f: SemaphoreEvent, d': DiskState)
    requires Inv(m, value, d) && CanHappen(m, e) && Step(d, e, f, d')
    requires f != Quiet ==> e == Elsewhere
    requires (f.Slept? ==> value == 0) && (f.Passed? ==> value > 0)
    ensures Inv(After(m, e), ValueAfter(value, f), d')
  {
    if f.Slept? || f.Passed? {
      if d.pc[f.t].Asking? { IssueReplays(d, d.pc[f.t].request); }
    }
  }

  // ---- Every run ----

  ghost predicate Initially(d: DiskState) {
    d == DiskState(false, d.formatted, map[], 0, 0, d.formatted, [])
  }

  /** A run of the kernel in which lock `l` and semaphore `s`, with value 0 at first, belong to the
      synchronous disk. */
  ghost predicate DiskRun(states: seq<Kernel>, actions: seq<Action>, l: nat, s: nat, ds: seq<DiskState>) {
    && Run(states, actions) && l < |states[0].locks|
    && s < |states[0].semaphores| && states[0].semaphores[s].initial == 0
    && |ds| == |states| == |actions| + 1 && Initially(ds[0])
    && forall n :: 0 <= n < |actions| ==> DiskStep(states[n], actions[n], l, s, ds[n], ds[n + 1])
  }

  ghost predicate DiskStep(k: Kernel, a: Action, l: nat, s: nat, d: DiskState, d': DiskState) {
    && l < |k.locks| && s < |k.semaphores| && Enabled(k, a) && a != V(s)
    && Step(d, EventOf(k, a, l), SemaphoreEventOf(k, a, s), d')
  }

  lemma OneObjectAtATime(k: Kernel, a: Action, l: nat, s: nat)
    requires Enabled(k, a) && l < |k.locks| && s < |k.semaphores| && SemaphoreEventOf(k, a, s) != Quiet
    ensures EventOf(k, a, l) == Elsewhere
  {
  }

  lemma {:induction false} RunKeepsDisk(states: seq<Kernel>, actions: seq<Action>, l: nat, s: nat,
                                        ds: seq<DiskState>, n: nat)
    requires DiskRun(states, actions, l, s, ds) && n < |states|
    ensures l < |states[n].locks| && s < |states[n].semaphores|
    ensures Inv(View(states[n], l), states[n].semaphores[s].value, ds[n])
  {
    hide Inv, Step, EventOf, CanHappen, After, Enabled, Run, SemaphoreEventOf, ValueAfter;
    if n == 0 {
      FirstState(states, actions, l, s, ds[0]);
    } else {
      RunKeepsDisk(states, actions, l, s, ds, n - 1);
      var k, a := states[n - 1], actions[n - 1];
      assert DiskStep(k, a, l, s, ds[n - 1], ds[n]);
      MonitorStep(states, actions, l, n - 1);
      SemaphoreStep(states, actions, s, n - 1);
      if SemaphoreEventOf(k, a, s) != Quiet { OneObjectAtATime(k, a, l, s); }
      StepKeepsInv(View(k, l), k.semaphores[s].value, ds[n - 1], EventOf(k, a, l), SemaphoreEventOf(k, a, s), ds[n]);
    }
  }

  lemma FirstState(states: seq<Kernel>, actions: seq<Action>, l: nat, s: nat, d: DiskState)
    requires Run(states, actions) && l < |states[0].locks| && s < |states[0].semaphores|
    requires states[0].semaphores[s].initial == 0 && Initially(d)
    ensures Inv(View(states[0], l), states[0].semaphores[s].value, d)
  {
    NobodyWaits(states[0], l);
    assert IsSemaphore(states[0], OnSemaphore(s)) && FreshSemaphore(SemaphoreAt(states[0], OnSemaphore(s)));
  }

  /** In every state of every run, for any number of threads: a request about to be issued finds the
      device inactive; at most one completion is pending; and the P that passes is matched by the
      completion of its own request. */
  lemma OneRequestAtATime(states: seq<Kernel>, actions: seq<Action>, l: nat, s: nat, ds: seq<DiskState>, n: nat, t: Tid)
    requires DiskRun(states, actions, l, s, ds) && n < |states| && t in ds[n].pc
    ensures s < |states[n].semaphores|
    ensures ds[n].pc[t].Asking? ==> !ds[n].active && ds[n].completed == ds[n].issued
    ensures ds[n].completed <= ds[n].issued <= ds[n].completed + 1
    ensures (if ds[n].active then 1 else 0) + states[n].semaphores[s].value == (if ds[n].pc[t].Waiting? then 1 else 0)
    ensures ds[n].pc[t].Waiting? && states[n].semaphores[s].value > 0 ==> ds[n].completed == ds[n].pc[t].id + 1
  {
    hide Run, DiskStep;
    RunKeepsDisk(states, actions, l, s, ds, n);
    assert View(states[n], l).owner == Some(t);
  }

  /** What ReadSector returns is what the log of all writes up to its return left in the sector. */
  lemma ReadsLastWrite(states: seq<Kernel>, actions: seq<Action>, l: nat, s: nat, ds: seq<DiskState>, n: nat, t: Tid)
    requires DiskRun(states, actions, l, s, ds) && n < |states| && t in ds[n].pc && ds[n].pc[t].Served?
    ensures ds[n].pc[t].data == Replay(ds[n].formatted, ds[n].log)[ds[n].pc[t].request.sector]
  {
    hide Run, DiskStep;
    RunKeepsDisk(states, actions, l, s, ds, n);
    assert Delivered(ds[n], t);
  }

  // ---- What a request does ----

  /** Thread `t` gets its request out. */
  ghost predicate Issues(d: DiskState, d': DiskState, t: Tid) {
    t in d.pc && d.pc[t].Asking? && t in d'.pc && d'.pc[t] != d.pc[t]
  }

  ghost predicate SomeoneIssues(d: DiskState, d': DiskState) {
    exists t :: Issues(d, d', t)
  }

  /** A write request puts the caller's data in its sector and leaves the others; a read request leaves all of
      them and gives the caller what its sector holds. Either makes the device active, and is the next entry
      of the log. */
  lemma IssueTransfers(states: seq<Kernel>, actions: seq<Action>, l: nat, s: nat, ds: seq<DiskState>, n: nat, t: Tid)
    requires DiskRun(states, actions, l, s, ds) && n < |actions| && Issues(ds[n], ds[n + 1], t)
    ensures var (d, d', request) := (ds[n], ds[n + 1], ds[n].pc[t].request);
            && !d.active && d'.active && d'.issued == d.issued + 1 && d'.completed == d.completed
            && d'.log == d.log + [request]
            && !d'.pc[t].Asking? && d'.pc[t].request == request && d'.pc[t].id == d.issued
            && d'.pc[t].data == (if request.WriteSector? then request.data else d.image[request.sector])
            && forall x: SectorNumber ::
                 d'.image[x] == if request.WriteSector? && x == request.sector then request.data else d.image[x]
    ensures states[n].running == Some(t)
  {
    hide Run;
    OneRequestAtATime(states, actions, l, s, ds, n, t);
    assert DiskStep(states[n], actions[n], l, s, ds[n], ds[n + 1]);
  }

  /** Nothing else touches the sectors, the log or the number of requests; and only the interrupt of an active
      request counts as a completion. */
  lemma OnlyRequestsTransfer(states: seq<Kernel>, actions: seq<Action>, l: nat, s: nat, ds: seq<DiskState>, n: nat)
    requires DiskRun(states, actions, l, s, ds) && n < |actions|
    ensures (ds[n + 1].image, ds[n + 1].log, ds[n + 1].issued) != (ds[n].image, ds[n].log, ds[n].issued) ==>
              SomeoneIssues(ds[n], ds[n + 1])
    ensures ds[n + 1].completed != ds[n].completed || (ds[n].active && !ds[n + 1].active) ==>
              && actions[n] == HandlerV(s) && ds[n].active && !ds[n + 1].active
              && ds[n + 1].completed == ds[n].completed + 1
    ensures ds[n + 1].formatted == ds[n].formatted
  {
    hide Run;
    assert DiskStep(states[n], actions[n], l, s, ds[n], ds[n + 1]);
    var f := SemaphoreEventOf(states[n], actions[n], s);
    if (f.Slept? || f.Passed?) && f.t in ds[n].pc && ds[n].pc[f.t].Asking? { assert Issues(ds[n], ds[n + 1], f.t); }
  }

  /** The last write to a sector in a log. */
  ghost predicate LastWriteAt(log: seq<Request>, x: SectorNumber, i: nat) {
    && i < |log| && log[i].WriteSector? && log[i].sector == x
    && forall j :: i < j < |log| ==> !(log[j].WriteSector? && log[j].sector == x)
  }

  /** A log leaves in a sector what its last write of the sector wrote, and what was there if it has none. */
  lemma {:induction false} ReplayIs(formatted: Image, log: seq<Request>, x: SectorNumber)
    ensures forall i: nat :: LastWriteAt(log, x, i) ==> Replay(formatted, log)[x] == log[i].data
    ensures (forall j :: 0 <= j < |log| ==> !(log[j].WriteSector? && log[j].sector == x)) ==>
              Replay(formatted, log)[x] == formatted[x]
  {
    if log != [] {
      var before, last := log[..|log| - 1], log[|log| - 1];
      ReplayIs(formatted, before, x);
      forall i: nat | LastWriteAt(log, x, i)
        ensures Replay(formatted, log)[x] == log[i].data
      {
        if i < |before| { assert LastWriteAt(before, x, i); }
      }
    }
  }
}
