/** A disk request from its issue to its interrupt: the timing of the disk (machine/disk.cc), the event
    queue and the clock (machine/interrupt.cc), and the device as the protocol of
    filesys/synchdisk.cc sees it, put together. */
module DiskRuns {
  import opened Sectors
  import opened Lists
  import opened Interrupts
  import opened Disks
  import P = DiskProtocol
  import M = Monitors

  /** What the machine may do while the disk is busy: switch interrupts, execute an instruction while
      they are on, idle, or have another device schedule an interrupt. */
  datatype Operation =
    | Switch(on: bool)
    | Instruction(status: MachineStatus)
    | Rest
    | Alarm(event: Event, fromNow: Delay)

  /** Between two operations no handler runs and nothing is overdue. */
  ghost predicate Running(interrupt: Interrupt)
    reads interrupt
  {
    interrupt.Valid() && interrupt.Punctual() && !interrupt.inHandler && interrupt.status != IdleMode
  }

  method Operate(interrupt: Interrupt, operation: Operation) returns (halted: bool)
    requires Running(interrupt)
    modifies interrupt
    ensures interrupt.Valid() && interrupt.Punctual() && (!halted ==> Running(interrupt))
    ensures old(interrupt.scheduled) <= interrupt.scheduled && old(interrupt.totalTicks) <= interrupt.totalTicks
  {
    hide Sorted, Conserved, OnTime, Due, Drained, InFuture, Prompt, LookedAt, FiredSince, Insert;
    halted := false;
    match operation
    case Switch(on) =>
      var _ := interrupt.SetLevel(on);
    case Instruction(status) =>
      if interrupt.enabled && status != IdleMode {
        interrupt.status := status;
        var _ := interrupt.OneTick();
      }
    case Rest =>
      var _ := interrupt.SetLevel(false);
      halted := interrupt.Idle();
    case Alarm(event, fromNow) =>
      interrupt.Schedule(event, fromNow);
  }

  /** Any sequence of operations, up to the halt of the machine. */
  method OperateAll(interrupt: Interrupt, operations: seq<Operation>)
    requires Running(interrupt)
    modifies interrupt
    ensures interrupt.Valid() && interrupt.Punctual()
    ensures old(interrupt.scheduled) <= interrupt.scheduled && old(interrupt.totalTicks) <= interrupt.totalTicks
  {
    hide Sorted, Conserved, OnTime, InFuture, Prompt;
    var halted := false;
    var i := 0;
    while i < |operations| && !halted
      invariant 0 <= i <= |operations|
      invariant interrupt.Valid() && interrupt.Punctual() && (!halted ==> Running(interrupt))
      invariant old(interrupt.scheduled) <= interrupt.scheduled && old(interrupt.totalTicks) <= interrupt.totalTicks
    {
      halted := Operate(interrupt, operations[i]);
      i := i + 1;
    }
  }

  /** The event fired when it was due, or less than one tick later. */
  ghost predicate FiredInTime(fired: seq<Fired>, e: Pending) {
    exists i :: 0 <= i < |fired| && fired[i].entry == e && e.key <= fired[i].time < e.key + SYSTEM_TICK
  }

  /** A scheduled event is pending before it is due, and has fired in time afterwards. */
  lemma PendingOrFired(interrupt: Interrupt, e: Pending)
    requires interrupt.Valid() && interrupt.Punctual() && e in interrupt.scheduled && e.item.kind != TimerInt
    ensures interrupt.totalTicks < e.key ==> e in interrupt.pending && !HasFired(interrupt.fired, e)
    ensures interrupt.totalTicks >= e.key ==> e !in interrupt.pending && FiredInTime(interrupt.fired, e)
  {
    var entries := Entries(interrupt.fired);
    assert multiset(interrupt.pending)[e] + multiset(entries)[e] == multiset(interrupt.scheduled)[e];
    assert e in multiset(interrupt.scheduled);
    FiredIsEntry(interrupt.fired, e);
    if interrupt.totalTicks >= e.key {
      assert e !in interrupt.pending;
      assert e in multiset(entries);
      var i :| 0 <= i < |entries| && entries[i] == e;
      assert interrupt.fired[i].entry == e;
    }
  }

  /** The object shows the device of the protocol. */
  ghost predicate Shows(disk: Disk, d: P.DiskState)
    reads disk
  {
    disk.image == d.image && disk.active == d.active
  }

  /** The device after its interrupt. */
  function Completed(d: P.DiskState): P.DiskState {
    d.(active := false, completed := d.completed + 1)
  }

  /** How long the request takes. */
  function Ticks(disk: Disk, now: nat, request: P.Request): nat
    reads disk
  {
    Latency(now, disk.lastSector, disk.bufferInit, request.sector, request.WriteSector?)
  }

  /** Issues a request and lets the machine do what it does. The request is the protocol's step Issue, and
      its caller's buffer holds what the protocol says; its interrupt is the event scheduled for now plus
      the latency; that event is pending while the clock is short of that time, and afterwards it has
      fired, less than a tick late, and its handler has been the protocol's step Raised. */
  method Serve(disk: Disk, interrupt: Interrupt, request: P.Request, handler: int, operations: seq<Operation>,
               ghost d: P.DiskState)
    returns (data: Sector, done: bool)
    requires Running(interrupt) && interrupt.totalTicks >= 0
    requires disk.Valid(interrupt.totalTicks) && !disk.active && Shows(disk, d)
    modifies disk, interrupt
    ensures interrupt.Valid() && interrupt.Punctual() && interrupt.totalTicks >= 0 && disk.Valid(interrupt.totalTicks)
    ensures data == P.Transfer(d, request)
    ensures var e := Entry(old(interrupt.totalTicks) + old(Ticks(disk, interrupt.totalTicks, request)),
                           Event(DiskInt, handler));
            && e in interrupt.scheduled && (done <==> e.key <= interrupt.totalTicks)
            && (!done ==> e in interrupt.pending && !HasFired(interrupt.fired, e))
            && (done ==> e !in interrupt.pending && FiredInTime(interrupt.fired, e))
    ensures Shows(disk, if done then Completed(P.Issue(d, request)) else P.Issue(d, request))
    ensures done ==> P.Step(P.Issue(d, request), M.Elsewhere, M.Raised, Completed(P.Issue(d, request)))
  {
    hide Sorted, Conserved, OnTime, InFuture, Prompt, Latency, Insert, Due, DueOnes, HasFired, FiredInTime;
    var now: nat := interrupt.totalTicks;
    var ticks: nat;
    match request {
      case ReadSector(sector) =>
        data, ticks := disk.ReadRequest(now, sector);
      case WriteSector(sector, new_data) =>
        ticks := disk.WriteRequest(now, sector, new_data);
        data := new_data;
    }
    interrupt.Schedule(Event(DiskInt, handler), ticks);
    ghost var e := Entry(now + ticks, Event(DiskInt, handler));
    ghost var scheduled := interrupt.scheduled;
    assert scheduled[|scheduled| - 1] == e;
    OperateAll(interrupt, operations);
    assert interrupt.scheduled[|scheduled| - 1] == e;
    PendingOrFired(interrupt, e);
    done := now + ticks <= interrupt.totalTicks;
    if done {
      disk.HandleInterrupt(interrupt.totalTicks);
    }
  }
}
