/** The simulated clock and the queue of pending interrupts (machine/interrupt.cc). What the devices'
    handlers do, schedule more interrupts and ask for a time slice, is any function of the history. */
module Interrupts {
  import opened Lists

  const SYSTEM_TICK := 10
  const USER_TICK := 1

  datatype IntType = TimerInt | DiskInt | ConsoleWriteInt | ConsoleReadInt | NetworkSendInt | NetworkRecvInt

  datatype MachineStatus = IdleMode | SystemMode | UserMode

  /** A handler with its argument, and the device it belongs to. */
  datatype Event = Event(kind: IntType, handler: int)

  /** A pending interrupt: the key is the time it is due. */
  type Pending = Entry<Event>

  /** An interrupt that has occurred, and when. */
  datatype Fired = Fired(time: int, entry: Pending)

  type Delay = n: int | n > 0 witness 1

  /** What a handler does: the interrupts it schedules, and whether it asks for a time slice. */
  datatype Response = Response(alarms: seq<(Delay, Event)>, timeSlice: bool)

  /** The entries of a history. */
  function Entries(fired: seq<Fired>): (r: seq<Pending>)
    ensures |r| == |fired|
  {
    seq(|fired|, i requires 0 <= i < |fired| => fired[i].entry)
  }

  /** No interrupt fired early, and times never go back, up to now. */
  ghost predicate OnTime(fired: seq<Fired>, now: int) {
    && (forall i :: 0 <= i < |fired| ==> fired[i].entry.key <= fired[i].time <= now)
    && (forall i, j :: 0 <= i < j < |fired| ==> fired[i].time <= fired[j].time)
  }

  /** Every interrupt ever scheduled is pending or has fired, and as often as it was scheduled. */
  ghost predicate Conserved(pending: seq<Pending>, fired: seq<Fired>, scheduled: seq<Pending>) {
    multiset(pending) + multiset(Entries(fired)) == multiset(scheduled)
  }

  /** The interrupts a handler's alarms amount to when it runs at this time. */
  function Alarms(alarms: seq<(Delay, Event)>, now: int): (r: seq<Pending>)
    ensures |r| == |alarms|
  {
    seq(|alarms|, i requires 0 <= i < |alarms| => Entry(now + alarms[i].0, alarms[i].1))
  }

  /** Has a handler asked for a time slice since `count` interrupts had fired? */
  function Asked(devices: seq<Fired> -> Response, fired: seq<Fired>, count: nat): bool {
    if |fired| <= count then false
    else Asked(devices, fired[..|fired| - 1], count) || devices(fired).timeSlice
  }

  /** A time slice has been asked for when some handler has done so, at the end of what had fired then. */
  lemma {:induction false} AskedBySome(devices: seq<Fired> -> Response, fired: seq<Fired>, count: nat)
    ensures Asked(devices, fired, count) <==> exists j :: count < j <= |fired| && devices(fired[..j]).timeSlice
    decreases |fired|
  {
    if |fired| > count {
      var before := fired[..|fired| - 1];
      AskedBySome(devices, before, count);
      assert fired[..|fired|] == fired;
      assert forall j :: 0 <= j <= |before| ==> before[..j] == fired[..j];
      if j :| count < j <= |before| && devices(before[..j]).timeSlice {
        assert devices(fired[..j]).timeSlice;
      }
      if j :| count < j <= |before| && devices(fired[..j]).timeSlice {
        assert devices(before[..j]).timeSlice;
      }
    }
  }

  /** How many pending interrupts are due. */
  function Due(pending: seq<Pending>, now: int): (n: nat)
    ensures n <= |pending| && (forall j :: 0 <= j < n ==> pending[j].key <= now)
    ensures n < |pending| ==> pending[n].key > now
  {
    Above(pending, now)
  }

  /** The interrupts that are due, in the order of the queue. */
  function DueOnes(pending: seq<Pending>, now: int): (r: seq<Pending>)
    ensures |r| == Due(pending, now)
  {
    pending[..Due(pending, now)]
  }

  /** What is scheduled for later does not change what is due. */
  lemma DueAfterInsert(pending: seq<Pending>, e: Pending, now: int)
    requires Sorted(pending) && e.key > now
    ensures DueOnes(Insert(pending, e), now) == DueOnes(pending, now)
  {
    var r := Insert(pending, e);
    var n, i := Due(pending, now), Above(pending, e.key);
    assert n <= i;
    forall j | 0 <= j < n
      ensures r[j] == pending[j] && r[j].key <= now
    {
    }
    if n < |r| { assert r[n] == if n < i then pending[n] else e; }
    AboveIs(r, now, n);
    assert r[..n] == pending[..n];
  }

  lemma FiredConserved(pending: seq<Pending>, fired: seq<Fired>, scheduled: seq<Pending>, now: int)
    requires pending != [] && Conserved(pending, fired, scheduled)
    ensures Conserved(pending[1..], fired + [Fired(now, pending[0])], scheduled)
  {
    assert pending == [pending[0]] + pending[1..];
    assert Entries(fired + [Fired(now, pending[0])]) == Entries(fired) + [pending[0]];
  }

  lemma FiredOnTime(fired: seq<Fired>, now: int, e: Pending)
    requires OnTime(fired, now) && e.key <= now
    ensures OnTime(fired + [Fired(now, e)], now)
  {
  }

  lemma LaterOnTime(fired: seq<Fired>, now: int, later: int)
    requires OnTime(fired, now) && now <= later
    ensures OnTime(fired, later)
  {
  }

  lemma ScheduledConserved(pending: seq<Pending>, fired: seq<Fired>, scheduled: seq<Pending>, e: Pending)
    requires Sorted(pending) && Conserved(pending, fired, scheduled)
    ensures Sorted(Insert(pending, e)) && Conserved(Insert(pending, e), fired, scheduled + [e])
  {
    InsertSorted(pending, e);
  }

  /** Putting the head back in keeps the queue sorted and complete. */
  lemma PutBack(pending: seq<Pending>)
    requires pending != [] && Sorted(pending)
    ensures var r := Insert(pending[1..], pending[0]);
            Sorted(r) && multiset(r) == multiset(pending) && (|pending| == 1 ==> r == pending)
    ensures forall now :: pending[0].key > now ==> Due(Insert(pending[1..], pending[0]), now) == 0
  {
    InsertSorted(pending[1..], pending[0]);
    assert pending == [pending[0]] + pending[1..];
    var i := Above(pending[1..], pending[0].key);
    if i > 0 { assert pending[1..][0].key <= pending[0].key; }
  }

  /** The queue after its head has been taken off and put back in. */
  function LookedAt(pending: seq<Pending>): seq<Pending> {
    if pending == [] then [] else Insert(pending[1..], pending[0])
  }

  lemma NoneDue(pending: seq<Pending>, now: int)
    requires pending != [] && Sorted(pending)
    ensures pending[0].key > now ==> DueOnes(pending, now) == [] && DueOnes(LookedAt(pending), now) == []
  {
    if pending[0].key > now { PutBack(pending); }
  }

  /** How many interrupts are due at the same time as the first. */
  function Tied(pending: seq<Pending>): nat
    requires pending != []
  {
    Due(pending, pending[0].key)
  }

  /** Those that are due with the first, and no others, come before any that is due later. */
  lemma TiedOnes(pending: seq<Pending>)
    requires Sorted(pending) && pending != []
    ensures 1 <= Tied(pending) <= |pending|
    ensures forall i :: 0 <= i < |pending| ==> (pending[i].key == pending[0].key <==> i < Tied(pending))
  {
    var n := Tied(pending);
    forall i | 0 <= i < |pending|
      ensures pending[i].key == pending[0].key <==> i < n
    {
      if n <= i { assert pending[n].key <= pending[i].key; }
    }
  }

  /** A look at the queue too early puts the first interrupt behind all that are due with it. */
  lemma LookRotates(pending: seq<Pending>)
    requires Sorted(pending) && pending != []
    ensures 1 <= Tied(pending) <= |pending|
    ensures LookedAt(pending) ==
            pending[1..Tied(pending)] + [pending[0]] + pending[Tied(pending)..]
  {
    var n, rest := Tied(pending), pending[1..];
    TiedOnes(pending);
    forall j | 0 <= j < n - 1
      ensures rest[j].key <= pending[0].key
    {
      assert rest[j] == pending[j + 1];
    }
    if n - 1 < |rest| { assert rest[n - 1] == pending[n]; }
    AboveIs(rest, pending[0].key, n - 1);
    assert rest[..n - 1] == pending[1..n] && rest[n - 1..] == pending[n..];
  }

  /** The first interrupt has no tie that differs from it. */
  predicate HeadAlone(pending: seq<Pending>) {
    forall i :: 0 <= i < |pending| && pending[i].key == pending[0].key ==> pending[i] == pending[0]
  }

  /** A look keeps the order of the queue exactly when the first interrupt has no tie that differs
      from it. */
  lemma LookKeepsOrder(pending: seq<Pending>)
    requires Sorted(pending)
    ensures LookedAt(pending) == pending <==> HeadAlone(pending)
  {
    if pending != [] {
      LookRotates(pending);
      TiedOnes(pending);
      var n := Tied(pending);
      var turned := pending[1..n] + [pending[0]];
      assert pending == pending[..n] + pending[n..];
      TurnedEqual(pending[..n]);
      assert pending[..n][1..] == pending[1..n];
      assert (turned + pending[n..])[..n] == turned;
      assert HeadAlone(pending) <==> forall i :: 0 <= i < n ==> pending[..n][i] == pending[0];
    }
  }

  /** A sequence that is the same after its head has gone to the end repeats its head. */
  lemma TurnedEqual(s: seq<Pending>)
    requires s != []
    ensures s[1..] + [s[0]] == s <==> forall i :: 0 <= i < |s| ==> s[i] == s[0]
  {
    var turned := s[1..] + [s[0]];
    if turned == s { AllEqual(s, |s| - 1); }
    assert (forall i :: 0 <= i < |s| ==> s[i] == s[0]) ==> turned == s;
  }

  lemma {:induction false} AllEqual(s: seq<Pending>, n: nat)
    requires n < |s| && s[1..] + [s[0]] == s
    ensures forall i :: 0 <= i <= n ==> s[i] == s[0]
  {
    if n > 0 {
      AllEqual(s, n - 1);
      assert (s[1..] + [s[0]])[n - 1] == s[n];
    }
  }

  /** The queue after some looks too early, such as every tick takes that finds nothing due. */
  function Looks(pending: seq<Pending>, k: nat): seq<Pending> {
    if k == 0 then pending else LookedAt(Looks(pending, k - 1))
  }

  /** The interrupts due first change places by one with each look; after as many looks as there are of
      them they are back in their order. */
  lemma {:induction false} LooksRotate(pending: seq<Pending>, k: nat)
    requires Sorted(pending) && pending != [] && k <= Tied(pending)
    ensures Sorted(Looks(pending, k)) && Tied(pending) <= |pending|
    ensures Looks(pending, k) == Turned(pending, Tied(pending), k)
    ensures k == Tied(pending) ==> Looks(pending, k) == pending
  {
    hide LookedAt, Tied, Sorted, Turned;
    TiedOnes(pending);
    var n := Tied(pending);
    TurnedRound(pending, n);
    if k > 0 {
      var q := Looks(pending, k - 1);
      LooksRotate(pending, k - 1);
      SameTied(pending, q, k - 1);
      LookRotates(q);
      LookSorted(q);
      TurnedOnce(pending, n, k);
    }
  }

  /** The first `k` entries moved behind the other of the first `n`. */
  function Turned(pending: seq<Pending>, n: nat, k: nat): (r: seq<Pending>)
    requires k <= n <= |pending|
    ensures |r| == |pending|
  {
    pending[k..n] + pending[..k] + pending[n..]
  }

  lemma TurnedRound(pending: seq<Pending>, n: nat)
    requires n <= |pending|
    ensures Turned(pending, n, 0) == pending && Turned(pending, n, n) == pending
  {
  }

  lemma TurnedOnce(pending: seq<Pending>, n: nat, k: nat)
    requires 1 <= k <= n <= |pending|
    ensures var q := Turned(pending, n, k - 1); q[1..n] + [q[0]] + q[n..] == Turned(pending, n, k)
  {
    var q := Turned(pending, n, k - 1);
    assert q[n..] == pending[n..] && q[0] == pending[k - 1];
    assert q[1..n] == pending[k..n] + pending[..k - 1];
    assert q[1..n] + [q[0]] == pending[k..n] + pending[..k];
  }

  lemma LookSorted(pending: seq<Pending>)
    requires Sorted(pending)
    ensures Sorted(LookedAt(pending))
  {
    if pending != [] { PutBack(pending); }
  }

  lemma SameTied(pending: seq<Pending>, q: seq<Pending>, k: nat)
    requires Sorted(pending) && pending != [] && k < Tied(pending) <= |pending|
    requires q == Turned(pending, Tied(pending), k)
    ensures Tied(q) == Tied(pending)
  {
    TiedOnes(pending);
    var n, key := Tied(pending), pending[0].key;
    forall i | 0 <= i < n
      ensures q[i].key == key
    {
      assert q[i] == if i < n - k then pending[k + i] else pending[i - (n - k)];
    }
    if n < |q| { assert q[n] == pending[n]; }
    AboveIs(q, key, n);
  }

  /** No pending interrupt has been missed; the time slice alone may be due at this very time. */
  ghost predicate InFuture(pending: seq<Pending>, now: int) {
    forall i :: 0 <= i < |pending| ==>
      pending[i].key > now || (pending[i].key == now && pending[i].item.kind == TimerInt)
  }

  /** By less than one tick has any interrupt been late; the time slice, by no more than one. */
  ghost predicate Prompt(fired: seq<Fired>) {
    forall i :: 0 <= i < |fired| ==>
      fired[i].time < fired[i].entry.key + SYSTEM_TICK
      || (fired[i].time == fired[i].entry.key + SYSTEM_TICK && fired[i].entry.item.kind == TimerInt)
  }

  lemma InsertInFuture(pending: seq<Pending>, e: Pending, now: int)
    requires InFuture(pending, now) && e.key > now
    ensures InFuture(Insert(pending, e), now)
  {
    var r := Insert(pending, e);
    forall i | 0 <= i < |r|
      ensures r[i].key > now || (r[i].key == now && r[i].item.kind == TimerInt)
    {
      InsertAt(pending, e, i);
    }
  }

  /** What a drain fires, and leaves due, is what was due, in the order of the queue. */
  ghost predicate Drained(pending: seq<Pending>, fired: seq<Fired>, pending': seq<Pending>,
                          fired': seq<Fired>, now: int) {
    && FiredSince(fired, fired', now)
    && Entries(fired') + DueOnes(pending', now) == Entries(fired) + DueOnes(pending, now)
  }

  /** What a drain fires was due. */
  lemma DrainedEntry(pending: seq<Pending>, fired: seq<Fired>, pending': seq<Pending>,
                     fired': seq<Fired>, now: int, i: nat)
    requires Drained(pending, fired, pending', fired', now) && |fired| <= i < |fired'|
    ensures fired'[i].time == now && i - |fired| < |pending|
    ensures fired'[i].entry == pending[i - |fired|] && fired'[i].entry.key <= now
  {
    assert fired'[i].entry == Entries(fired')[i] == (Entries(fired) + DueOnes(pending, now))[i];
  }

  /** What a drain leaves due was due before. */
  lemma DrainedRest(pending: seq<Pending>, fired: seq<Fired>, pending': seq<Pending>,
                    fired': seq<Fired>, now: int, i: nat)
    requires Drained(pending, fired, pending', fired', now) && i < Due(pending', now)
    ensures pending'[i] in pending
  {
    var k := |fired'| + i;
    assert pending'[i] == (Entries(fired') + DueOnes(pending', now))[k] == (Entries(fired) + DueOnes(pending, now))[k];
  }

  lemma DrainPunctual(pending: seq<Pending>, fired: seq<Fired>, pending': seq<Pending>, fired': seq<Fired>,
                      before: int, now: int)
    requires InFuture(pending, before) && Prompt(fired) && before <= now <= before + SYSTEM_TICK
    requires Drained(pending, fired, pending', fired', now) && Sorted(pending') && Due(pending', now) == 0
    ensures InFuture(pending', now) && Prompt(fired')
  {
    hide Due, DueOnes, Entries;
    NothingDue(pending', now);
    forall i | 0 <= i < |fired'|
      ensures fired'[i].time < fired'[i].entry.key + SYSTEM_TICK
              || (fired'[i].time == fired'[i].entry.key + SYSTEM_TICK && fired'[i].entry.item.kind == TimerInt)
    {
      if i < |fired| {
        assert fired'[i] == fired[i];
      } else {
        DrainedEntry(pending, fired, pending', fired', now, i);
      }
    }
  }

  /** The first interrupt is the next one due. */
  lemma HeadDue(pending: seq<Pending>, now: int)
    requires Sorted(pending)
    ensures pending == [] ==> Due(pending, now) == 0
    ensures pending != [] && pending[0].key <= now ==>
              DueOnes(pending, now) == [pending[0]] + DueOnes(pending[1..], now)
    ensures pending != [] ==> Sorted(pending[1..])
  {
  }

  class Interrupt {
    const devices: seq<Fired> -> Response
    var enabled: bool
    var pending: seq<Pending>
    var inHandler: bool
    var yieldOnReturn: bool
    var status: MachineStatus
    var totalTicks: int
    var idleTicks: int
    var systemTicks: int
    var userTicks: int
    var fired: seq<Fired>
    ghost var scheduled: seq<Pending>

    ghost predicate Valid()
      reads this
    {
      && Sorted(pending)
      && totalTicks == idleTicks + systemTicks + userTicks
      && OnTime(fired, totalTicks)
      && Conserved(pending, fired, scheduled)
    }

    /** Nothing is overdue, and nothing has fired late. */
    ghost predicate Punctual()
      reads this
    {
      InFuture(pending, totalTicks) && Prompt(fired)
    }

    constructor (devices: seq<Fired> -> Response)
      ensures Valid() && Punctual() && !enabled && pending == [] && fired == [] && totalTicks == 0
      ensures !inHandler && status == SystemMode
    {
      this.devices := devices;
      enabled, pending, inHandler, yieldOnReturn, status := false, [], false, false, SystemMode;
      totalTicks, idleTicks, systemTicks, userTicks := 0, 0, 0, 0;
      fired, scheduled := [], [];
    }

    /** Adds an interrupt strictly in the future. */
    method Schedule(event: Event, fromNow: Delay)
      requires Valid()
      modifies this`pending, this`scheduled
      ensures Valid()
      ensures pending == Insert(old(pending), Entry(totalTicks + fromNow, event))
      ensures scheduled == old(scheduled) + [Entry(totalTicks + fromNow, event)]
      ensures DueOnes(pending, totalTicks) == DueOnes(old(pending), totalTicks)
      ensures old(Punctual()) ==> Punctual()
    {
      hide Sorted, Conserved, OnTime, DueOnes, Insert, InFuture, Prompt;
      if InFuture(pending, totalTicks) { InsertInFuture(pending, Entry(totalTicks + fromNow, event), totalTicks); }
      var when := totalTicks + fromNow;
      ScheduledConserved(pending, fired, scheduled, Entry(when, event));
      DueAfterInsert(pending, Entry(when, event), totalTicks);
      pending := Insert(pending, Entry(when, event));
      scheduled := scheduled + [Entry(when, event)];
    }

    /** Calls the handler of the interrupt that has just been recorded as fired: its alarms are scheduled,
        in order, and its wish for a time slice is noted. */
    method CallHandler()
      requires Valid()
      modifies this`pending, this`scheduled, this`yieldOnReturn
      ensures Valid()
      ensures scheduled == old(scheduled) + Alarms(devices(fired).alarms, totalTicks)
      ensures forall i :: 0 <= i < |devices(fired).alarms| ==>
                scheduled[|old(scheduled)|..][i] ==
                Entry(totalTicks + devices(fired).alarms[i].0, devices(fired).alarms[i].1)
      ensures yieldOnReturn == (old(yieldOnReturn) || devices(fired).timeSlice)
      ensures DueOnes(pending, totalTicks) == DueOnes(old(pending), totalTicks)
    {
      hide Sorted, Conserved, OnTime, Due, DueOnes, Insert;
      var response := devices(fired);
      for i := 0 to |response.alarms|
        invariant Valid()
        invariant DueOnes(pending, totalTicks) == DueOnes(old(pending), totalTicks)
        invariant scheduled == old(scheduled) + Alarms(response.alarms, totalTicks)[..i]
        invariant yieldOnReturn == old(yieldOnReturn)
      {
        Schedule(response.alarms[i].1, response.alarms[i].0);
      }
      if response.timeSlice {
        yieldOnReturn := true;
      }
    }

    /** Nothing is left to wait for: the time-slice interrupt alone does not count. */
    ghost predicate OnlyTimer()
      reads this
    {
      |pending| == 1 && pending[0].item.kind == TimerInt
    }

    /** Fires the first pending interrupt if it is due, or, idle, moves the clock on to it. */
    method CheckIfDue(advanceClock: bool) returns (done: bool)
      requires Valid() && !enabled
      modifies this
      ensures Valid() && !enabled && status == old(status)
      ensures systemTicks == old(systemTicks) && userTicks == old(userTicks)
      ensures totalTicks == if advanceClock && old(pending) != [] && old(pending)[0].key > old(totalTicks)
                            then old(pending)[0].key else old(totalTicks)
      ensures !done ==> fired == old(fired) && scheduled == old(scheduled) && pending == LookedAt(old(pending))
      ensures done ==> scheduled == old(scheduled) + Alarms(devices(fired).alarms, totalTicks)
      ensures yieldOnReturn == (old(yieldOnReturn) || (done && devices(fired).timeSlice))
      ensures done ==> old(pending) != [] && fired == old(fired) + [Fired(totalTicks, old(pending)[0])]
      ensures done ==> DueOnes(old(pending), totalTicks) == [old(pending)[0]] + DueOnes(pending, totalTicks)
      ensures !done ==> DueOnes(pending, totalTicks) == DueOnes(old(pending), totalTicks)
      ensures !old(inHandler) ==> !inHandler
      ensures !done && !advanceClock ==> Due(pending, totalTicks) == 0 || (status == IdleMode && OnlyTimer())
      ensures done <==> old(pending) != [] && !(old(status) == IdleMode && old(OnlyTimer()))
                        && (advanceClock || old(pending)[0].key <= old(totalTicks))
    {
      hide Sorted, Conserved, OnTime, Due, DueOnes, Insert;
      HeadDue(pending, totalTicks);
      if pending == [] {
        return false;
      }
      PutBack(pending);
      NoneDue(pending, totalTicks);
      ghost var all := pending;
      var toOccur := pending[0];
      var when := toOccur.key;
      pending := pending[1..];
      if advanceClock && when > totalTicks {
        LaterOnTime(fired, totalTicks, when);
        idleTicks := idleTicks + (when - totalTicks);
        totalTicks := when;
      } else if when > totalTicks {
        pending := Insert(pending, toOccur);
        SameEntries(all, pending, fired, scheduled);
        return false;
      }
      if status == IdleMode && toOccur.item.kind == TimerInt && pending == [] {
        pending := Insert(pending, toOccur);
        return false;
      }
      HeadDue(all, totalTicks);
      Fire(all, toOccur);
      return true;
    }

    /** Runs the handler of an interrupt just taken off the queue. */
    method Fire(ghost all: seq<Pending>, toOccur: Pending)
      requires all != [] && toOccur == all[0] && pending == all[1..] && toOccur.key <= totalTicks
      requires Sorted(pending) && OnTime(fired, totalTicks) && Conserved(all, fired, scheduled)
      requires totalTicks == idleTicks + systemTicks + userTicks
      modifies this`pending, this`scheduled, this`yieldOnReturn, this`fired, this`inHandler, this`status
      ensures Valid() && status == old(status)
      ensures fired == old(fired) + [Fired(totalTicks, toOccur)] && !inHandler
      ensures scheduled == old(scheduled) + Alarms(devices(fired).alarms, totalTicks)
      ensures yieldOnReturn == (old(yieldOnReturn) || devices(fired).timeSlice)
      ensures DueOnes(pending, totalTicks) == DueOnes(old(pending), totalTicks)
    {
      hide Sorted, Conserved, OnTime, Due, DueOnes, Insert;
      FiredConserved(all, fired, scheduled, totalTicks);
      FiredOnTime(fired, totalTicks, toOccur);
      var oldStatus := status;
      inHandler := true;
      status := SystemMode;
      fired := fired + [Fired(totalTicks, toOccur)];
      CallHandler();
      status := oldStatus;
      inHandler := false;
    }

    /** while (CheckIfDue(false)): ends because handlers schedule strictly in the future. What was due
        fires in the order of the queue; a drain that finds nothing due is a look at the queue. */
    method FireAllDue()
      requires Valid() && !enabled
      modifies this
      ensures Valid() && !enabled && status == old(status) && (!old(inHandler) ==> !inHandler)
      ensures totalTicks == old(totalTicks) && systemTicks == old(systemTicks) && userTicks == old(userTicks)
      ensures Due(pending, totalTicks) == 0 || (status == IdleMode && OnlyTimer())
      ensures Drained(old(pending), old(fired), pending, fired, totalTicks) && old(scheduled) <= scheduled
      ensures Due(old(pending), totalTicks) == 0 ==>
                fired == old(fired) && scheduled == old(scheduled) && pending == LookedAt(old(pending))
      ensures yieldOnReturn == (old(yieldOnReturn)
                                || exists j :: |old(fired)| < j <= |fired| && devices(fired[..j]).timeSlice)
    {
      hide Sorted, Conserved, OnTime, Due, DueOnes, Drained, LookedAt;
      DrainStarts(pending, fired, totalTicks);
      var done := DrainOne(pending, fired, |fired|);
      while done
        invariant Valid() && !enabled && status == old(status) && (!old(inHandler) ==> !inHandler)
        invariant totalTicks == old(totalTicks) && systemTicks == old(systemTicks) && userTicks == old(userTicks)
        invariant yieldOnReturn == (old(yieldOnReturn) || Asked(devices, fired, |old(fired)|))
        invariant !done ==> Due(pending, totalTicks) == 0 || (status == IdleMode && OnlyTimer())
        invariant Drained(old(pending), old(fired), pending, fired, totalTicks) && old(scheduled) <= scheduled
        invariant |old(fired)| <= |fired|
        invariant Due(old(pending), totalTicks) == 0 ==>
                    !done && fired == old(fired) && scheduled == old(scheduled) && pending == LookedAt(old(pending))
        decreases if done then Due(pending, totalTicks) + 1 else 0
      {
        done := DrainOne(old(pending), old(fired), |old(fired)|);
      }
      AskedBySome(devices, fired, |old(fired)|);
    }

    /** One round of the loop, in a drain that began with this queue and history. */
    method DrainOne(ghost before: seq<Pending>, ghost past: seq<Fired>, ghost count: nat) returns (done: bool)
      requires Valid() && !enabled && Drained(before, past, pending, fired, totalTicks) && count <= |fired|
      modifies this
      ensures Valid() && !enabled && status == old(status) && (!old(inHandler) ==> !inHandler)
      ensures totalTicks == old(totalTicks) && systemTicks == old(systemTicks) && userTicks == old(userTicks)
      ensures Drained(before, past, pending, fired, totalTicks) && old(scheduled) <= scheduled
      ensures count <= |fired|
      ensures yieldOnReturn == (old(yieldOnReturn) || (done && devices(fired).timeSlice))
      ensures Asked(devices, fired, count) == (Asked(devices, old(fired), count) || (done && devices(fired).timeSlice))
      ensures done ==> Due(pending, totalTicks) < Due(old(pending), totalTicks)
      ensures !done ==> Due(pending, totalTicks) == 0 || (status == IdleMode && OnlyTimer())
      ensures !done ==> fired == old(fired) && scheduled == old(scheduled) && pending == LookedAt(old(pending))
    {
      hide Sorted, Conserved, OnTime, Due, DueOnes, Drained, LookedAt;
      ghost var pending0, fired0 := pending, fired;
      done := CheckIfDue(false);
      if done {
        DrainGoesOn(before, past, pending0, fired0, pending, totalTicks);
        assert fired[..|fired| - 1] == fired0;
      } else {
        DrainStops(before, past, pending0, fired, pending, totalTicks);
      }
    }

    /** Advances the clock and fires what has become due, in the order of the queue; then lets the
        interrupted thread yield if a handler asked for it. A tick with nothing due is a look at the
        queue. */
    method OneTick() returns (timeSlice: bool)
      requires Valid() && enabled
      modifies this
      ensures Valid() && enabled && status == old(status) && !yieldOnReturn && (!old(inHandler) ==> !inHandler)
      ensures old(status) == SystemMode ==>
                && totalTicks == old(totalTicks) + 10 && systemTicks == old(systemTicks) + 10
                && userTicks == old(userTicks)
      ensures old(status) != SystemMode ==>
                totalTicks == old(totalTicks) + 1 && userTicks == old(userTicks) + 1 && systemTicks == old(systemTicks)
      ensures idleTicks == old(idleTicks)
      ensures Due(pending, totalTicks) == 0 || (status == IdleMode && OnlyTimer())
      ensures Drained(old(pending), old(fired), pending, fired, totalTicks) && old(scheduled) <= scheduled
      ensures Due(old(pending), totalTicks) == 0 ==>
                fired == old(fired) && scheduled == old(scheduled) && pending == LookedAt(old(pending))
      ensures old(Punctual()) && status != IdleMode ==> Punctual()
      ensures timeSlice == (old(yieldOnReturn)
                            || exists j :: |old(fired)| < j <= |fired| && devices(fired[..j]).timeSlice)
    {
      hide Sorted, Conserved, OnTime, Due, DueOnes, Drained, LookedAt, InFuture, Prompt;
      LaterOnTime(fired, totalTicks, totalTicks + SYSTEM_TICK);
      LaterOnTime(fired, totalTicks, totalTicks + USER_TICK);
      if status == SystemMode {
        totalTicks := totalTicks + SYSTEM_TICK;
        systemTicks := systemTicks + SYSTEM_TICK;
      } else {
        totalTicks := totalTicks + USER_TICK;
        userTicks := userTicks + USER_TICK;
      }
      enabled := false;
      FireAllDue();
      if old(Punctual()) && status != IdleMode {
        DrainPunctual(old(pending), old(fired), pending, fired, old(totalTicks), totalTicks);
      }
      enabled := true;
      timeSlice := yieldOnReturn;
      yieldOnReturn := false;
    }

    /** Switches interrupts on or off; switching them on advances the clock. */
    method SetLevel(now: bool) returns (before: bool)
      requires Valid() && (now ==> !inHandler)
      modifies this
      ensures Valid() && enabled == now && before == old(enabled) && status == old(status)
      ensures !old(inHandler) ==> !inHandler
      ensures !(now && !before) ==> totalTicks == old(totalTicks) && pending == old(pending) && fired == old(fired)
      ensures now && !before && old(status) == SystemMode ==>
                && totalTicks == old(totalTicks) + 10 && systemTicks == old(systemTicks) + 10
                && userTicks == old(userTicks)
      ensures now && !before && old(status) != SystemMode ==>
                totalTicks == old(totalTicks) + 1 && userTicks == old(userTicks) + 1 && systemTicks == old(systemTicks)
      ensures !(now && !before) ==> systemTicks == old(systemTicks) && userTicks == old(userTicks)
      ensures idleTicks == old(idleTicks)
      ensures now && !before ==> Drained(old(pending), old(fired), pending, fired, totalTicks)
      ensures now && !before && status != IdleMode ==> Due(pending, totalTicks) == 0
      ensures old(scheduled) <= scheduled
      ensures old(Punctual()) && status != IdleMode ==> Punctual()
    {
      hide Sorted, Conserved, OnTime, Due, DueOnes, Drained, InFuture, Prompt;
      before := enabled;
      enabled := now;
      if now && !before {
        var _ := OneTick();
      }
    }

    /** With nobody to run, moves the clock on to the next interrupt; the machine halts exactly when
        none is pending but, at most, the time slice. What fires, fires on time. */
    method Idle() returns (halted: bool)
      requires Valid() && !enabled
      modifies this
      ensures Valid() && (!old(inHandler) ==> !inHandler)
      ensures halted <==> old(pending) == [] || old(OnlyTimer())
      ensures halted ==> fired == old(fired) && status == IdleMode
      ensures !halted ==> status == SystemMode && !yieldOnReturn && !enabled
      ensures !halted ==>
                totalTicks == if old(pending)[0].key > old(totalTicks) then old(pending)[0].key else old(totalTicks)
      ensures !halted ==> FiredSince(old(fired) + [Fired(totalTicks, old(pending)[0])], fired, totalTicks)
      ensures !halted ==> Drained(old(pending), old(fired), pending, fired, totalTicks)
      ensures !halted ==> Due(pending, totalTicks) == 0 || OnlyTimer()
      ensures systemTicks == old(systemTicks) && userTicks == old(userTicks)
      ensures idleTicks == old(idleTicks) + (totalTicks - old(totalTicks))
      ensures old(totalTicks) <= totalTicks && old(fired) <= fired && old(scheduled) <= scheduled
      ensures old(Punctual()) ==> Punctual()
      ensures old(Punctual()) ==> forall i :: |old(fired)| <= i < |fired| ==> fired[i].time == fired[i].entry.key
    {
      hide Sorted, Conserved, OnTime, Due, DueOnes, Drained, LookedAt, InFuture, Prompt, FiredSince;
      ghost var pending0, fired0, ticks0 := pending, fired, totalTicks;
      status := IdleMode;
      var done := CheckIfDue(true);
      if done {
        ghost var pending1, fired1 := pending, fired;
        FireAllDue();
        yieldOnReturn := false;
        status := SystemMode;
        DrainJoined(pending0, fired0, pending1, fired1, pending, fired, totalTicks);
        if InFuture(pending0, ticks0) && Prompt(fired0) {
          IdlePunctual(pending0, fired0, pending, fired, ticks0, totalTicks);
        }
        return false;
      }
      HaltPunctual(pending0, fired0, ticks0, totalTicks);
      return true;
    }

    /** The interrupts that are due first fire, after one look at the queue too early, in their order with
        the first behind all others: in the order of the queue exactly when the first has no tie that
        differs from it. */
    method FireAfterLook()
      requires Valid() && !enabled && status == SystemMode && pending != [] && pending[0].key > totalTicks
      modifies this
      ensures Valid() && FiredSince(old(fired), fired, old(pending)[0].key) && 1 <= Tied(old(pending)) <= |old(pending)|
      ensures Entries(fired) == Entries(old(fired)) + (old(pending)[1..Tied(old(pending))] + [old(pending)[0]])
      ensures Entries(fired) == Entries(old(fired)) + old(pending)[..Tied(old(pending))] <==> HeadAlone(old(pending))
    {
      hide Sorted, Conserved, OnTime, Due, DueOnes, Drained, LookedAt, Tied, Entries, FiredSince, HeadAlone;
      ghost var pending0, fired0 := pending, fired;
      LookedAtDue(pending0);
      var early := CheckIfDue(false);
      ghost var pending1 := pending;
      var first := CheckIfDue(true);
      ghost var pending2, fired2 := pending, fired;
      FireAllDue();
      DrainJoined(pending1, fired0, pending2, fired2, pending, fired, totalTicks);
      AllDrained(pending1, fired0, pending, fired, totalTicks);
      TurnedEntries(pending0, Entries(fired0), Entries(fired));
    }

    /** For instance, of two interrupts due at the same time the second fires first. */
    method TiesChangePlaces(a: Event, b: Event, when: int)
      requires Valid() && !enabled && status == SystemMode && totalTicks < when
      requires pending == [Entry(when, a), Entry(when, b)]
      modifies this
      ensures fired == old(fired) + [Fired(when, Entry(when, b)), Fired(when, Entry(when, a))]
    {
      hide Sorted, Conserved, OnTime;
      TiedOnes(pending);
      FireAfterLook();
      PairFired(old(fired), fired, Entry(when, b), Entry(when, a), when);
    }
  }

  lemma DrainStarts(pending: seq<Pending>, fired: seq<Fired>, now: int)
    ensures Drained(pending, fired, pending, fired, now)
  {
  }

  lemma DrainGoesOn(before: seq<Pending>, past: seq<Fired>, pending: seq<Pending>, fired: seq<Fired>,
                    pending': seq<Pending>, now: int)
    requires Drained(before, past, pending, fired, now) && pending != []
    requires DueOnes(pending, now) == [pending[0]] + DueOnes(pending', now)
    ensures Drained(before, past, pending', fired + [Fired(now, pending[0])], now)
    ensures Due(pending', now) < Due(pending, now)
  {
    hide Due, DueOnes;
    OneMoreEntry(fired, Fired(now, pending[0]));
    assert Entries(fired) + [pending[0]] + DueOnes(pending', now) == Entries(fired) + DueOnes(pending, now);
  }

  lemma OneMoreEntry(fired: seq<Fired>, f: Fired)
    ensures Entries(fired + [f]) == Entries(fired) + [f.entry]
  {
  }

  lemma DrainStops(before: seq<Pending>, past: seq<Fired>, pending: seq<Pending>, fired: seq<Fired>,
                   pending': seq<Pending>, now: int)
    requires Drained(before, past, pending, fired, now) && DueOnes(pending', now) == DueOnes(pending, now)
    ensures Drained(before, past, pending', fired, now)
  {
  }

  /** The first interrupt fires, and then the drain. */
  lemma DrainJoined(pending: seq<Pending>, fired: seq<Fired>, pending1: seq<Pending>, fired1: seq<Fired>,
                    pending2: seq<Pending>, fired2: seq<Fired>, now: int)
    requires pending != [] && fired1 == fired + [Fired(now, pending[0])]
    requires DueOnes(pending, now) == [pending[0]] + DueOnes(pending1, now)
    requires Drained(pending1, fired1, pending2, fired2, now)
    ensures Drained(pending, fired, pending2, fired2, now) && fired <= fired2 && FiredSince(fired1, fired2, now)
  {
    hide Due, DueOnes;
    OneMoreEntry(fired, Fired(now, pending[0]));
    assert Entries(fired) + [pending[0]] + DueOnes(pending1, now) == Entries(fired) + DueOnes(pending, now);
  }

  lemma AllDrained(pending: seq<Pending>, fired: seq<Fired>, pending': seq<Pending>, fired': seq<Fired>, now: int)
    requires Drained(pending, fired, pending', fired', now) && Due(pending', now) == 0
    ensures Entries(fired') == Entries(fired) + DueOnes(pending, now) && FiredSince(fired, fired', now)
  {
    hide Entries;
    assert DueOnes(pending', now) == [];
  }

  /** After a look the same interrupts are due first, with their head at the end. */
  lemma LookedAtDue(pending: seq<Pending>)
    requires Sorted(pending) && pending != []
    ensures 1 <= Tied(pending) <= |pending| && LookedAt(pending) != []
    ensures LookedAt(pending)[0].key == pending[0].key
    ensures DueOnes(LookedAt(pending), pending[0].key) == pending[1..Tied(pending)] + [pending[0]]
  {
    var n, r, key := Tied(pending), LookedAt(pending), pending[0].key;
    LookRotates(pending);
    TiedOnes(pending);
    var turned := pending[1..n] + [pending[0]];
    assert r == turned + pending[n..] && r[..n] == turned;
    forall j | 0 <= j < n
      ensures r[j].key == key
    {
      assert r[j] == turned[j];
    }
    if n < |r| { assert r[n] == pending[n]; }
    AboveIs(r, key, n);
  }

  lemma TurnedEntries(pending: seq<Pending>, before: seq<Pending>, after: seq<Pending>)
    requires Sorted(pending) && pending != [] && 1 <= Tied(pending) <= |pending|
    requires after == before + (pending[1..Tied(pending)] + [pending[0]])
    ensures after == before + pending[..Tied(pending)] <==> HeadAlone(pending)
  {
    TiedOnes(pending);
    var n := Tied(pending);
    TurnedEqual(pending[..n]);
    assert pending[..n][1..] == pending[1..n];
    assert after[|before|..] == pending[1..n] + [pending[0]];
    assert (before + pending[..n])[|before|..] == pending[..n];
    assert HeadAlone(pending) <==> forall i :: 0 <= i < n ==> pending[..n][i] == pending[0];
  }

  lemma PairFired(past: seq<Fired>, fired: seq<Fired>, first: Pending, second: Pending, when: int)
    requires FiredSince(past, fired, when) && Entries(fired) == Entries(past) + [first, second]
    ensures fired == past + [Fired(when, first), Fired(when, second)]
  {
    var n := |past|;
    assert |fired| == n + 2 && Entries(fired)[n] == first && Entries(fired)[n + 1] == second;
    assert fired == past + [fired[n], fired[n + 1]];
  }

  lemma IdlePunctual(pending: seq<Pending>, fired: seq<Fired>, pending': seq<Pending>, fired': seq<Fired>,
                     before: int, now: int)
    requires pending != [] && Sorted(pending) && Sorted(pending') && InFuture(pending, before) && Prompt(fired)
    requires now == if pending[0].key > before then pending[0].key else before
    requires Drained(pending, fired, pending', fired', now)
    requires Due(pending', now) == 0 || (|pending'| == 1 && pending'[0].item.kind == TimerInt)
    ensures InFuture(pending', now) && Prompt(fired')
    ensures forall i :: |fired| <= i < |fired'| ==> fired'[i].time == fired'[i].entry.key
  {
    hide DueOnes, Drained, Entries;
    forall i | 0 <= i < |pending|
      ensures pending[i].key >= now
    {
      if i > 0 { assert pending[0].key <= pending[i].key; }
    }
    if Due(pending', now) == 0 {
      NothingDue(pending', now);
    } else {
      DrainedRest(pending, fired, pending', fired', now, 0);
    }
    assert fired <= fired' by { DrainExtends(pending, fired, pending', fired', now); }
    forall i | |fired| <= i < |fired'|
      ensures fired'[i].time == fired'[i].entry.key
    {
      DrainedEntry(pending, fired, pending', fired', now, i);
    }
  }

  lemma DrainExtends(pending: seq<Pending>, fired: seq<Fired>, pending': seq<Pending>, fired': seq<Fired>, now: int)
    requires Drained(pending, fired, pending', fired', now)
    ensures fired <= fired'
  {
  }

  /** A machine that halts leaves no interrupt behind but, at most, the time slice. */
  lemma HaltPunctual(pending: seq<Pending>, fired: seq<Fired>, before: int, now: int)
    requires pending == [] || (|pending| == 1 && pending[0].item.kind == TimerInt)
    requires now == if pending != [] && pending[0].key > before then pending[0].key else before
    ensures InFuture(pending, before) ==> InFuture(LookedAt(pending), now)
  {
  }

  /** The history has grown by interrupts that fired at this time. */
  ghost predicate FiredSince(before: seq<Fired>, after: seq<Fired>, now: int) {
    before <= after && forall i :: |before| <= i < |after| ==> after[i].time == now
  }

  lemma SameEntries(a: seq<Pending>, b: seq<Pending>, fired: seq<Fired>, scheduled: seq<Pending>)
    requires multiset(a) == multiset(b) && Conserved(a, fired, scheduled)
    ensures Conserved(b, fired, scheduled)
  {
  }

  /** Nothing due remains: every pending interrupt lies in the future. */
  lemma NothingDue(pending: seq<Pending>, now: int)
    requires Sorted(pending) && Due(pending, now) == 0
    ensures forall i :: 0 <= i < |pending| ==> pending[i].key > now
  {
    if pending != [] {
      assert pending[0].key > now;
      forall i | 0 <= i < |pending|
        ensures pending[i].key > now
      {
        if i > 0 { assert pending[0].key <= pending[i].key; }
      }
    }
  }

  /** Two occurrences are counted twice. */
  lemma CountedTwice(s: seq<Pending>, i: nat, j: nat)
    requires i < j < |s| && s[i] == s[j]
    ensures multiset(s)[s[i]] >= 2
  {
    assert s == s[..j] + [s[j]] + s[j + 1..];
    assert s[..j][i] == s[i];
  }

  predicate HasFired(fired: seq<Fired>, e: Pending) {
    exists i :: 0 <= i < |fired| && fired[i].entry == e
  }

  lemma FiredIsEntry(fired: seq<Fired>, e: Pending)
    ensures HasFired(fired, e) <==> e in Entries(fired)
  {
    if HasFired(fired, e) {
      var i :| 0 <= i < |fired| && fired[i].entry == e;
      assert Entries(fired)[i] == e;
    }
  }

  /** An interrupt that was scheduled once fires at most once: it is pending until it has fired, and not
      after. Once nothing due is pending, it has fired if its time has come. */
  lemma FiresOnce(interrupt: Interrupt, e: Pending)
    requires interrupt.Valid() && multiset(interrupt.scheduled)[e] == 1
    ensures e in interrupt.pending <==> !HasFired(interrupt.fired, e)
    ensures forall i, j :: 0 <= i < j < |interrupt.fired| ==>
              !(interrupt.fired[i].entry == e && interrupt.fired[j].entry == e)
    ensures Due(interrupt.pending, interrupt.totalTicks) == 0 && e.key <= interrupt.totalTicks ==>
              HasFired(interrupt.fired, e)
  {
    var entries := Entries(interrupt.fired);
    assert multiset(interrupt.pending)[e] + multiset(entries)[e] == 1;
    FiredIsEntry(interrupt.fired, e);
    forall i, j | 0 <= i < j < |entries| && interrupt.fired[i].entry == e && interrupt.fired[j].entry == e
      ensures false
    {
      assert entries[i] == entries[j] == e;
      CountedTwice(entries, i, j);
    }
    if Due(interrupt.pending, interrupt.totalTicks) == 0 { NothingDue(interrupt.pending, interrupt.totalTicks); }
  }
}
