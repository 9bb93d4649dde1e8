/** How long the simulated disk takes (machine/disk.cc): seeking, waiting for the sector to come
    round, transferring it, and the track buffer that makes some reads faster. */
module Disks {
  import opened Sectors

  const SECTORS_PER_TRACK := 32
  const ROTATION_TIME := 500
  const SEEK_TIME := 500

  function Abs(n: int): nat { if n < 0 then -n else n }

  /** TimeToSeek: the time to reach the track. */
  function SeekTime(last: SectorNumber, to: SectorNumber): nat {
    Abs(to / SECTORS_PER_TRACK - last / SECTORS_PER_TRACK) * SEEK_TIME
  }

  /** TimeToSeek: from the end of the seek to the next sector boundary. */
  function Rotation(now: nat, seek: nat): nat {
    var over := (now + seek) % ROTATION_TIME;
    if over > 0 then ROTATION_TIME - over else 0
  }

  /** Sectors that pass before `to` comes under a head at `from`. */
  function ModuloDiff(to: nat, from: nat): nat {
    ((to % SECTORS_PER_TRACK - from % SECTORS_PER_TRACK) + SECTORS_PER_TRACK) % SECTORS_PER_TRACK
  }

  /** When the head, on its track, first meets a sector boundary. */
  function TimeAfter(now: nat, last: SectorNumber, to: SectorNumber): nat {
    now + SeekTime(last, to) + Rotation(now, SeekTime(last, to))
  }

  /** The test for the track buffer. The difference can only be negative when no read can hit, and
      then the quotient is not positive whichever way the division rounds. */
  predicate BufferHit(now: nat, last: SectorNumber, bufferInit: nat, to: SectorNumber, writing: bool) {
    && !writing && SeekTime(last, to) == 0
    && (TimeAfter(now, last, to) - bufferInit) / ROTATION_TIME > ModuloDiff(to, bufferInit / ROTATION_TIME)
  }

  /** The latency without the track buffer. */
  function Unbuffered(now: nat, last: SectorNumber, to: SectorNumber): nat {
    SeekTime(last, to)
    + (Rotation(now, SeekTime(last, to)) + ModuloDiff(to, TimeAfter(now, last, to) / ROTATION_TIME) * ROTATION_TIME)
    + ROTATION_TIME
  }

  function Latency(now: nat, last: SectorNumber, bufferInit: nat, to: SectorNumber, writing: bool): nat {
    if BufferHit(now, last, bufferInit, to, writing) then ROTATION_TIME else Unbuffered(now, last, to)
  }

  // ---- What the latency is ----

  /** Sector `s` of a track is under the head from time `t` on, for one rotation time. */
  ghost predicate PassesAt(s: nat, t: nat) {
    t % ROTATION_TIME == 0 && (t / ROTATION_TIME) % SECTORS_PER_TRACK == s % SECTORS_PER_TRACK
  }

  /** The sector has passed wholly under the head between two times. */
  ghost predicate PassedWholly(s: nat, since: nat, until: nat) {
    exists t: nat :: PassesAt(s, t) && since <= t && t + ROTATION_TIME <= until
  }

  lemma DiffReaches(s: nat, from: nat)
    ensures ModuloDiff(s, from) < SECTORS_PER_TRACK
    ensures (from + ModuloDiff(s, from)) % SECTORS_PER_TRACK == s % SECTORS_PER_TRACK
  {
  }

  lemma DiffIsLeast(from: nat, d: nat, j: nat)
    requires d < SECTORS_PER_TRACK && (from + j) % SECTORS_PER_TRACK == (from + d) % SECTORS_PER_TRACK
    ensures d <= j
  {
  }

  lemma Shifted(start: nat, d: nat)
    requires start % ROTATION_TIME == 0
    ensures (start + d * ROTATION_TIME) % ROTATION_TIME == 0
    ensures (start + d * ROTATION_TIME) / ROTATION_TIME == start / ROTATION_TIME + d
  {
  }

  /** After ModuloDiff more sectors the target begins to pass, and not earlier. */
  lemma FirstPass(s: nat, start: nat)
    requires start % ROTATION_TIME == 0
    ensures PassesAt(s, start + ModuloDiff(s, start / ROTATION_TIME) * ROTATION_TIME)
    ensures forall t: nat :: PassesAt(s, t) && start <= t ==>
              start + ModuloDiff(s, start / ROTATION_TIME) * ROTATION_TIME <= t
  {
    var d, from := ModuloDiff(s, start / ROTATION_TIME), start / ROTATION_TIME;
    DiffReaches(s, from);
    hide ModuloDiff;
    Shifted(start, d);
    forall t: nat | PassesAt(s, t) && start <= t
      ensures start + d * ROTATION_TIME <= t
    {
      NotEarlier(s, start, d, t);
    }
  }

  lemma NotEarlier(s: nat, start: nat, d: nat, t: nat)
    requires start % ROTATION_TIME == 0 && PassesAt(s, t) && start <= t && d < SECTORS_PER_TRACK
    requires (start / ROTATION_TIME + d) % SECTORS_PER_TRACK == s % SECTORS_PER_TRACK
    ensures start + d * ROTATION_TIME <= t
  {
    var from, j := start / ROTATION_TIME, t / ROTATION_TIME - start / ROTATION_TIME;
    assert start == from * ROTATION_TIME && t == (from + j) * ROTATION_TIME && j >= 0;
    DiffIsLeast(from, d, j);
  }

  lemma Boundary(now: nat, last: SectorNumber, to: SectorNumber)
    ensures TimeAfter(now, last, to) % ROTATION_TIME == 0
    ensures now + SeekTime(last, to) <= TimeAfter(now, last, to) < now + SeekTime(last, to) + ROTATION_TIME
  {
  }

  lemma SeekBound(last: SectorNumber, to: SectorNumber)
    ensures SeekTime(last, to) <= 31 * SEEK_TIME
    ensures SeekTime(last, to) == 0 <==> last / SECTORS_PER_TRACK == to / SECTORS_PER_TRACK
  {
  }

  /** The head crosses one track in 500 ticks, in either direction. */
  lemma SeekPerTrack(last: SectorNumber, to: SectorNumber)
    ensures var (a, b) := (last / 32, to / 32); SeekTime(last, to) == if b >= a then 500 * (b - a) else 500 * (a - b)
  {
  }

  /** An unbuffered request reaches its track, 500 ticks for each one crossed, waits for the first full
      pass of its sector, which comes round every 32 times 500 ticks, and ends with the head just past
      it. */
  lemma UnbufferedEnds(now: nat, last: SectorNumber, to: SectorNumber)
    ensures var arrival := now + 500 * (if to / 32 >= last / 32 then to / 32 - last / 32 else last / 32 - to / 32);
            var done := now + Unbuffered(now, last, to);
            && done % 500 == 0 && (done / 500) % 32 == (to + 1) % 32
            && arrival + 500 <= done < arrival + 500 + 32 * 500
            && PassesAt(to, done - 500)
            && forall t: nat :: PassesAt(to, t) && arrival <= t ==> done - 500 <= t
  {
    var start := TimeAfter(now, last, to);
    var begin := start + ModuloDiff(to, start / ROTATION_TIME) * ROTATION_TIME;
    Boundary(now, last, to);
    SeekPerTrack(last, to);
    FirstPass(to, start);
    UnbufferedIs(now, last, to);
    DiffReaches(to, start / ROTATION_TIME);
    hide SeekTime, ModuloDiff, TimeAfter, Rotation, Unbuffered;
    JustPast(to, begin);
    hide PassesAt;
    forall t: nat | PassesAt(to, t) && now + SeekTime(last, to) <= t
      ensures begin <= t
    {
      StartOf(to, t);
      BoundariesApart(t, start);
    }
  }

  lemma StartOf(s: nat, t: nat)
    requires PassesAt(s, t)
    ensures t % ROTATION_TIME == 0
  {
  }

  lemma SameNext(a: nat, b: nat)
    requires a % SECTORS_PER_TRACK == b % SECTORS_PER_TRACK
    ensures (a + 1) % SECTORS_PER_TRACK == (b + 1) % SECTORS_PER_TRACK
  {
  }

  /** When a sector has passed, the head is at the next one. */
  lemma JustPast(s: nat, t: nat)
    requires PassesAt(s, t)
    ensures (t + ROTATION_TIME) % ROTATION_TIME == 0
    ensures ((t + ROTATION_TIME) / ROTATION_TIME) % SECTORS_PER_TRACK == (s + 1) % SECTORS_PER_TRACK
  {
    Shifted(t, 1);
    SameNext(t / ROTATION_TIME, s);
  }

  lemma UnbufferedIs(now: nat, last: SectorNumber, to: SectorNumber)
    ensures now + Unbuffered(now, last, to) ==
            TimeAfter(now, last, to) + ModuloDiff(to, TimeAfter(now, last, to) / ROTATION_TIME) * ROTATION_TIME
            + ROTATION_TIME
  {
    hide SeekTime, ModuloDiff, Rotation;
  }

  /** No boundary lies less than a rotation time before another. */
  lemma BoundariesApart(s: nat, t: nat)
    requires s % ROTATION_TIME == 0 && t % ROTATION_TIME == 0 && t < s + ROTATION_TIME
    ensures t <= s
  {
  }

  /** For every time, head position and sector. */
  lemma LatencyBounds(now: nat, last: SectorNumber, bufferInit: nat, to: SectorNumber, writing: bool)
    ensures ROTATION_TIME <= Latency(now, last, bufferInit, to, writing) <= 31999
  {
    SeekBound(last, to);
    hide SeekTime;
  }

  /** The track buffer never costs more than going without it. */
  lemma BufferNeverSlower(now: nat, last: SectorNumber, bufferInit: nat, to: SectorNumber, writing: bool)
    ensures Latency(now, last, bufferInit, to, writing) <= Unbuffered(now, last, to)
  {
    hide SeekTime, ModuloDiff, Rotation;
  }

  /** A read hits the track buffer exactly when it is on the current track and its sector has passed
      wholly under the head since the buffer was started, by the next sector boundary. */
  lemma BufferHolds(now: nat, last: SectorNumber, bufferInit: nat, to: SectorNumber, writing: bool)
    requires bufferInit % ROTATION_TIME == 0
    ensures BufferHit(now, last, bufferInit, to, writing) <==>
            !writing && last / SECTORS_PER_TRACK == to / SECTORS_PER_TRACK
            && PassedWholly(to, bufferInit, TimeAfter(now, last, to))
  {
    SeekBound(last, to);
    FirstPass(to, bufferInit);
    var d := ModuloDiff(to, bufferInit / ROTATION_TIME);
    hide SeekTime, ModuloDiff, TimeAfter, PassesAt;
    HitMeansPassed(TimeAfter(now, last, to), bufferInit, d);
    assert PassesAt(to, bufferInit + d * ROTATION_TIME);
  }

  lemma HitMeansPassed(until: nat, since: nat, d: nat)
    ensures (until - since) / ROTATION_TIME > d <==> since + d * ROTATION_TIME + ROTATION_TIME <= until
  {
  }

  /** The latency is 500 exactly for such a read, by the boundary at or next after the request; every
      other request, and every write, takes what it takes without the buffer. */
  lemma LatencyIs(now: nat, last: SectorNumber, bufferInit: nat, to: SectorNumber, writing: bool, boundary: nat)
    requires bufferInit % 500 == 0 && boundary % 500 == 0 && now <= boundary < now + 500
    ensures Latency(now, last, bufferInit, to, writing) ==
            if !writing && last / 32 == to / 32 && PassedWholly(to, bufferInit, boundary) then 500
            else Unbuffered(now, last, to)
  {
    hide SeekTime, Unbuffered, PassedWholly, ModuloDiff, BufferHit, TimeAfter;
    BufferHolds(now, last, bufferInit, to, writing);
    SeekBound(last, to);
    Boundary(now, last, to);
    if last / 32 == to / 32 { SameBoundary(boundary, TimeAfter(now, last, to), now); }
  }

  lemma SameBoundary(a: nat, b: nat, now: nat)
    requires a % ROTATION_TIME == 0 && b % ROTATION_TIME == 0
    requires now <= a < now + ROTATION_TIME && now <= b < now + ROTATION_TIME
    ensures a == b
  {
  }

  /** The head after a request: a seek restarts the track buffer at the first boundary after the arrival. */
  ghost predicate HeadMoved(now: nat, last: SectorNumber, bufferInit: nat, to: SectorNumber,
                            last': SectorNumber, bufferInit': nat) {
    && last' == to
    && (last / 32 == to / 32 ==> bufferInit' == bufferInit)
    && (last / 32 != to / 32 ==>
          var arrival := now + 500 * (if to / 32 >= last / 32 then to / 32 - last / 32 else last / 32 - to / 32);
          bufferInit' % 500 == 0 && arrival <= bufferInit' < arrival + 500)
  }

  lemma HeadMoves(now: nat, last: SectorNumber, bufferInit: nat, to: SectorNumber)
    ensures HeadMoved(now, last, bufferInit, to, to,
                      if SeekTime(last, to) != 0 then TimeAfter(now, last, to) else bufferInit)
  {
    SeekPerTrack(last, to);
    SeekBound(last, to);
    Boundary(now, last, to);
    hide SeekTime, TimeAfter;
  }

  /** The sector need not have passed by the time of the request: a read in the middle of the very
      first pass of its sector hits the buffer too. */
  lemma HitBeforePassed(now: nat, last: SectorNumber, bufferInit: nat, to: SectorNumber)
    requires bufferInit % ROTATION_TIME == 0 && BufferHit(now, last, bufferInit, to, false)
    ensures PassedWholly(to, bufferInit, now) <==>
            now % ROTATION_TIME == 0
            || (TimeAfter(now, last, to) - bufferInit) / ROTATION_TIME > ModuloDiff(to, bufferInit / ROTATION_TIME) + 1
  {
    var until, d := TimeAfter(now, last, to), ModuloDiff(to, bufferInit / ROTATION_TIME);
    Boundary(now, last, to);
    FirstPass(to, bufferInit);
    assert SeekTime(last, to) == 0;
    OnBoundary(now, last, to);
    hide SeekTime, ModuloDiff, TimeAfter, PassesAt, Rotation;
    HitMeansPassed(until, bufferInit, d);
    HitMeansPassed(until, bufferInit, d + 1);
    EarliestPass(to, bufferInit, now, bufferInit + d * ROTATION_TIME);
    Shifted(bufferInit, d + 1);
    if now % ROTATION_TIME != 0 { BoundaryBelow(until, bufferInit + (d + 1) * ROTATION_TIME, now); }
  }

  lemma OnBoundary(now: nat, last: SectorNumber, to: SectorNumber)
    requires SeekTime(last, to) == 0
    ensures now % ROTATION_TIME == 0 ==> TimeAfter(now, last, to) == now
    ensures now % ROTATION_TIME != 0 ==> TimeAfter(now, last, to) - ROTATION_TIME < now < TimeAfter(now, last, to)
  {
    hide SeekTime;
  }

  lemma EarliestPass(s: nat, since: nat, until: nat, earliest: nat)
    requires PassesAt(s, earliest) && since <= earliest
    requires forall t: nat :: PassesAt(s, t) && since <= t ==> earliest <= t
    ensures PassedWholly(s, since, until) <==> earliest + ROTATION_TIME <= until
  {
    hide PassesAt;
  }

  lemma BoundaryBelow(until: nat, end: nat, now: nat)
    requires until % ROTATION_TIME == 0 && end % ROTATION_TIME == 0 && until - ROTATION_TIME < now < until
    ensures end <= now <==> end + ROTATION_TIME <= until
  {
  }

  /** For instance, ten ticks after the head has come to sector 0. */
  lemma HitOnFirstPass()
    ensures BufferHit(10, 0, 0, 0, false) && !PassedWholly(0, 0, 10)
  {
  }

  // ---- The device over time ----

  class Disk {
    var image: Image
    var lastSector: SectorNumber
    var bufferInit: nat
    var active: bool
    ghost var doneAt: nat

    /** The buffer was started at a sector boundary, before the device became idle. */
    ghost predicate Valid(now: nat)
      reads this
    {
      && bufferInit % ROTATION_TIME == 0
      && (if active then bufferInit <= doneAt else bufferInit <= now)
    }

    constructor (contents: Image)
      ensures Valid(0) && !active && image == contents
    {
      image, lastSector, bufferInit, active := contents, 0, 0, false;
    }

    method ComputeLatency(now: nat, newSector: SectorNumber, writing: bool) returns (ticks: nat)
      ensures ticks == Latency(now, lastSector, bufferInit, newSector, writing)
    {
      var seek := SeekTime(lastSector, newSector);
      var rotation := Rotation(now, seek);
      var timeAfter := now + seek + rotation;
      if !writing && seek == 0
        && (timeAfter - bufferInit) / ROTATION_TIME > ModuloDiff(newSector, bufferInit / ROTATION_TIME)
      {
        return ROTATION_TIME;
      }
      rotation := rotation + ModuloDiff(newSector, timeAfter / ROTATION_TIME) * ROTATION_TIME;
      return seek + rotation + ROTATION_TIME;
    }

    method UpdateLast(now: nat, newSector: SectorNumber)
      modifies this`lastSector, this`bufferInit
      ensures bufferInit == if SeekTime(old(lastSector), newSector) != 0 then TimeAfter(now, old(lastSector), newSector)
                            else old(bufferInit)
      ensures HeadMoved(now, old(lastSector), old(bufferInit), newSector, lastSector, bufferInit)
    {
      HeadMoves(now, lastSector, bufferInit, newSector);
      hide HeadMoved;
      var seek := SeekTime(lastSector, newSector);
      if seek != 0 {
        bufferInit := now + seek + Rotation(now, seek);
      }
      lastSector := newSector;
    }

    /** Transfers the sector at once; the interrupt comes `ticks` later. */
    method ReadRequest(now: nat, sectorNumber: SectorNumber) returns (data: Sector, ticks: nat)
      requires Valid(now) && !active
      modifies this
      ensures Valid(now) && active && doneAt == now + ticks && image == old(image) && data == image[sectorNumber]
      ensures ticks == Latency(now, old(lastSector), old(bufferInit), sectorNumber, false) && ticks > 0
      ensures HeadMoved(now, old(lastSector), old(bufferInit), sectorNumber, lastSector, bufferInit)
    {
      hide SeekTime, ModuloDiff, Rotation, HeadMoved;
      ticks := ComputeLatency(now, sectorNumber, false);
      BufferStartsInTime(now, lastSector, bufferInit, sectorNumber, false);
      data := image[sectorNumber];
      active := true;
      UpdateLast(now, sectorNumber);
      doneAt := now + ticks;
    }

    method WriteRequest(now: nat, sectorNumber: SectorNumber, data: Sector) returns (ticks: nat)
      requires Valid(now) && !active
      modifies this
      ensures Valid(now) && active && doneAt == now + ticks && image == old(image)[sectorNumber := data]
      ensures ticks == Latency(now, old(lastSector), old(bufferInit), sectorNumber, true) && ticks > 0
      ensures HeadMoved(now, old(lastSector), old(bufferInit), sectorNumber, lastSector, bufferInit)
    {
      hide SeekTime, ModuloDiff, Rotation, HeadMoved;
      ticks := ComputeLatency(now, sectorNumber, true);
      BufferStartsInTime(now, lastSector, bufferInit, sectorNumber, true);
      image := image[sectorNumber := data];
      active := true;
      UpdateLast(now, sectorNumber);
      doneAt := now + ticks;
    }

    /** The interrupt, at the time the request is done or later. */
    method HandleInterrupt(now: nat)
      requires Valid(now) && active && doneAt <= now
      modifies this`active
      ensures Valid(now) && !active
    {
      active := false;
    }
  }

  /** A seek restarts the buffer at a sector boundary, before the request that seeks is done. */
  lemma BufferStartsInTime(now: nat, last: SectorNumber, bufferInit: nat, to: SectorNumber, writing: bool)
    ensures TimeAfter(now, last, to) % ROTATION_TIME == 0
    ensures SeekTime(last, to) != 0 ==> TimeAfter(now, last, to) <= now + Latency(now, last, bufferInit, to, writing)
    ensures Latency(now, last, bufferInit, to, writing) > 0
  {
    Boundary(now, last, to);
    hide SeekTime, ModuloDiff, Rotation;
  }
}
