/** Virtual memory as user programs reach it through a page table (machine/translate.cc). */
module Translation {
  import opened Sectors
  import opened BitMaps
  import opened Encoding
  import opened FileLayout
  import opened FiniteSets
  import opened OpenFiles
  import opened AddrSpaces

  datatype ExceptionType =
    | NoException | PageFaultException | ReadOnlyException | BusErrorException | AddressErrorException

  type AccessSize = n: int | n == 1 || n == 2 || n == 4 witness 1

  predicate Aligned(addr: uint32, size: AccessSize) {
    addr % size == 0
  }

  /** The access meets no error: aligned, to a valid page of the table that may be written if it is to
      be, in a frame that exists. */
  predicate Accessible(pageTable: PageTable, addr: uint32, size: AccessSize, writing: bool) {
    && Aligned(addr, size)
    && addr / PAGE_SIZE < |pageTable|
    && (var entry := pageTable[addr / PAGE_SIZE];
        entry.valid && !(entry.readOnly && writing) && 0 <= entry.physicalPage < NUM_PHYS_PAGES)
  }

  /** A page holds a whole number of aligned words, so its start is aligned. */
  lemma SameAlignment(page: nat, offset: nat)
    ensures (page * PAGE_SIZE + offset) % 2 == offset % 2
    ensures (page * PAGE_SIZE + offset) % 4 == offset % 4
  {
    RemainderOf2(page * PAGE_SIZE + offset, 64 * page + offset / 2, offset % 2);
    RemainderOf4(page * PAGE_SIZE + offset, 32 * page + offset / 4, offset % 4);
  }

  lemma RemainderOf2(n: nat, words: nat, rest: nat)
    requires n == 2 * words + rest && rest < 2
    ensures n % 2 == rest
  {
  }

  lemma RemainderOf4(n: nat, words: nat, rest: nat)
    requires n == 4 * words + rest && rest < 4
    ensures n % 4 == rest
  {
  }

  /** An aligned access stays within its page, and so within memory. */
  lemma StaysInPage(addr: uint32, size: AccessSize)
    requires Aligned(addr, size)
    ensures addr % PAGE_SIZE + size <= PAGE_SIZE
  {
    var page, offset := addr / PAGE_SIZE, addr % PAGE_SIZE;
    assert addr == page * PAGE_SIZE + offset;
    SameAlignment(page, offset);
    RoomForAccess(offset, size);
  }

  lemma RoomForAccess(offset: nat, size: AccessSize)
    requires offset < PAGE_SIZE && offset % size == 0
    ensures offset + size <= PAGE_SIZE
  {
  }

  /** A value as it lies in memory, least significant byte first. */
  function Stored(value: int32, size: AccessSize): (r: seq<byte>)
    ensures |r| == size
  {
    var u := ToUnsigned(value);
    if size == 1 then [ByteOf(u, 0)]
    else if size == 2 then [ByteOf(u, 0), ByteOf(u, 1)]
    else [ByteOf(u, 0), ByteOf(u, 1), ByteOf(u, 2), ByteOf(u, 3)]
  }

  /** What a read makes of the bytes: one byte is signed, two are not, four are. */
  function Fetched(s: seq<byte>): int32
    requires |s| == 1 || |s| == 2 || |s| == 4
  {
    if |s| == 1 then (if s[0] >= 128 then s[0] as int - 256 else s[0] as int)
    else if |s| == 2 then s[0] as int + 256 * s[1] as int
    else ToSigned(WordAt(s, 0))
  }

  /** A value lies in memory with its least significant byte first. */
  lemma StoredBytes(value: int32, size: AccessSize)
    ensures var u := if value < 0 then value + 0x1_0000_0000 else value;
            var s := Stored(value, size);
            && s[0] == u % 256 && (size >= 2 ==> s[1] == u / 256 % 256)
            && (size == 4 ==> s[2] == u / 65536 % 256 && s[3] == u / 16777216)
  {
  }

  /** A read of one byte is signed, one of two is not, one of four is; the first byte counts least. */
  lemma FetchedValue(s: seq<byte>)
    requires |s| == 1 || |s| == 2 || |s| == 4
    ensures |s| == 1 ==> Fetched(s) == if s[0] >= 128 then s[0] as int - 256 else s[0] as int
    ensures |s| == 2 ==> Fetched(s) == s[0] as int + 256 * s[1] as int
    ensures |s| == 4 ==> var u := s[0] as int + 256 * s[1] as int + 65536 * s[2] as int + 16777216 * s[3] as int;
                         Fetched(s) == if u >= 0x8000_0000 then u - 0x1_0000_0000 else u
  {
  }

  /** The part of a value that an access of some size keeps. */
  function Kept(value: int32, size: AccessSize): int {
    if size == 4 then value
    else if size == 2 then ToUnsigned(value) % 65536
    else (var low := ToUnsigned(value) % 256; if low >= 128 then low - 256 else low)
  }

  /** Reading back what was written gives the value, cut to the size of the access. */
  lemma StoredFetched(value: int32, size: AccessSize)
    ensures Fetched(Stored(value, size)) == Kept(value, size)
  {
    hide WordAt;
    if size == 4 {
      FourBytes(value);
    } else if size == 2 {
      TwoBytes(ToUnsigned(value));
    }
  }

  lemma FourBytes(value: int32)
    ensures Fetched(Stored(value, 4)) == value
  {
    hide WordAt, ByteOf;
    WordRoundTrip(ToUnsigned(value), Stored(value, 4), 0);
  }

  lemma TwoBytes(u: uint32)
    ensures u % 65536 == u % 256 + 256 * (u / 256 % 256)
  {
    assert u / 256 / 256 == u / 65536;
  }

  class Machine {
    const mainMemory: array<byte>
    var pageTable: PageTable

    constructor (memory: array<byte>, pageTable: PageTable)
      ensures mainMemory == memory && this.pageTable == pageTable
    {
      mainMemory := memory;
      this.pageTable := pageTable;
    }

    /** Translates an address, noting the use of its page; on an error nothing changes. */
    method Translate(virtAddr: int32, size: AccessSize, writing: bool) returns (exception: ExceptionType, physAddr: int)
      modifies this`pageTable
      ensures exception == NoException <==> Accessible(old(pageTable), ToUnsigned(virtAddr), size, writing)
      ensures exception != NoException ==> pageTable == old(pageTable)
      ensures exception == NoException ==>
                physAddr == Physical(old(pageTable), ToUnsigned(virtAddr))
                && 0 <= physAddr && physAddr + size <= MEMORY_SIZE
      ensures exception == NoException ==> Used(old(pageTable), pageTable, ToUnsigned(virtAddr), writing)
      ensures exception == AddressErrorException <==>
                ToUnsigned(virtAddr) % size != 0 || ToUnsigned(virtAddr) / PAGE_SIZE >= |old(pageTable)|
      ensures exception == PageFaultException <==>
                ToUnsigned(virtAddr) % size == 0 && ToUnsigned(virtAddr) / PAGE_SIZE < |old(pageTable)|
                && !old(pageTable)[ToUnsigned(virtAddr) / PAGE_SIZE].valid
      ensures exception == ReadOnlyException <==>
                ToUnsigned(virtAddr) % size == 0 && ToUnsigned(virtAddr) / PAGE_SIZE < |old(pageTable)|
                && old(pageTable)[ToUnsigned(virtAddr) / PAGE_SIZE].valid
                && writing && old(pageTable)[ToUnsigned(virtAddr) / PAGE_SIZE].readOnly
      ensures exception == BusErrorException <==>
                ToUnsigned(virtAddr) % size == 0 && ToUnsigned(virtAddr) / PAGE_SIZE < |old(pageTable)|
                && var entry := old(pageTable)[ToUnsigned(virtAddr) / PAGE_SIZE];
                   entry.valid && !(writing && entry.readOnly)
                   && (entry.physicalPage < 0 || entry.physicalPage >= NUM_PHYS_PAGES)
      ensures exception == NoException ==>
                var vpn := ToUnsigned(virtAddr) / 128;
                var entry := old(pageTable)[vpn];
                && physAddr == 128 * entry.physicalPage + ToUnsigned(virtAddr) % 128
                && pageTable == old(pageTable)[vpn := entry.(use := true, dirty := entry.dirty || writing)]
    {
      physAddr := 0;
      var addr := ToUnsigned(virtAddr);
      if (size == 4 && addr % 4 != 0) || (size == 2 && addr % 2 != 0) {
        return AddressErrorException, physAddr;
      }
      var vpn, offset := addr / PAGE_SIZE, addr % PAGE_SIZE;
      if vpn >= |pageTable| {
        return AddressErrorException, physAddr;
      } else if !pageTable[vpn].valid {
        return PageFaultException, physAddr;
      }
      var entry := pageTable[vpn];
      if entry.readOnly && writing {
        return ReadOnlyException, physAddr;
      }
      if entry.physicalPage < 0 || entry.physicalPage >= NUM_PHYS_PAGES {
        return BusErrorException, physAddr;
      }
      pageTable := pageTable[vpn := entry.(use := true, dirty := entry.dirty || writing)];
      physAddr := entry.physicalPage * PAGE_SIZE + offset;
      StaysInPage(addr, size);
      return NoException, physAddr;
    }

    method ReadMem(addr: int32, size: AccessSize) returns (ok: bool, value: int32)
      requires mainMemory.Length == MEMORY_SIZE
      modifies this`pageTable
      ensures ok <==> Accessible(old(pageTable), ToUnsigned(addr), size, false)
      ensures ok ==> var at := Physical(old(pageTable), ToUnsigned(addr));
                     0 <= at && at + size <= MEMORY_SIZE && value == Fetched(mainMemory[at..at + size])
      ensures ok ==> Used(old(pageTable), pageTable, ToUnsigned(addr), false)
    {
      var exception, physicalAddress := Translate(addr, size, false);
      if exception != NoException {
        return false, 0;
      }
      return true, Fetched(mainMemory[physicalAddress..physicalAddress + size]);
    }

    method WriteMem(addr: int32, size: AccessSize, value: int32) returns (ok: bool)
      requires mainMemory.Length == MEMORY_SIZE
      modifies this`pageTable, mainMemory
      ensures ok <==> Accessible(old(pageTable), ToUnsigned(addr), size, true)
      ensures !ok ==> mainMemory[..] == old(mainMemory[..]) && pageTable == old(pageTable)
      ensures ok ==> var at := Physical(old(pageTable), ToUnsigned(addr));
                     0 <= at && at + size <= MEMORY_SIZE
                     && mainMemory[..] == Splice(old(mainMemory[..]), at, Stored(value, size))
      ensures ok ==> Used(old(pageTable), pageTable, ToUnsigned(addr), true)
    {
      var exception, physicalAddress := Translate(addr, size, true);
      if exception != NoException {
        return false;
      }
      Copy(Stored(value, size), mainMemory, physicalAddress);
      return true;
    }
  }

  /** Only the use and dirty bits of one page change. */
  ghost predicate Used(before: PageTable, after: PageTable, addr: uint32, writing: bool)
    requires addr / PAGE_SIZE < |before|
  {
    var vpn := addr / PAGE_SIZE;
    after == before[vpn := before[vpn].(use := true, dirty := before[vpn].dirty || writing)]
  }

  /** What is read from where something was just written is that, cut to size. */
  lemma WrittenReadBack(memory: seq<byte>, at: nat, value: int32, size: AccessSize)
    requires at + size <= |memory|
    ensures Fetched(Splice(memory, at, Stored(value, size))[at..at + size]) == Kept(value, size)
  {
    StoredFetched(value, size);
    assert Splice(memory, at, Stored(value, size))[at..at + size] == Stored(value, size);
  }

  /** A loaded program can read every byte of its code and initialised data, and finds there the byte
      of the file. */
  lemma LoadedBytesReadable(memory: seq<byte>, pageTable: PageTable, segment: Segment, contents: seq<byte>, k: nat)
    requires |memory| == MEMORY_SIZE && Mapped(pageTable) && |pageTable| <= NUM_PHYS_PAGES
    requires InRange(segment, |pageTable|, |contents|) && Sees(memory, pageTable, segment, contents) && k < segment.size
    ensures segment.virtualAddr + k < MEMORY_SIZE
    ensures Accessible(pageTable, segment.virtualAddr + k, 1, false)
    ensures var at := Physical(pageTable, segment.virtualAddr + k);
            0 <= at < MEMORY_SIZE && memory[at] == contents[segment.inFileAddr + k]
  {
    assert Inside(segment, segment.size, segment.virtualAddr + k);
    PhysicalInMemory(pageTable, segment.virtualAddr + k);
  }

  /** A wide access to a loaded segment finds the bytes of the file one after the other. */
  lemma LoadedWide(memory: seq<byte>, pageTable: PageTable, segment: Segment, contents: seq<byte>, k: nat,
                   size: AccessSize)
    requires |memory| == MEMORY_SIZE && Mapped(pageTable) && |pageTable| <= NUM_PHYS_PAGES
    requires InRange(segment, |pageTable|, |contents|) && Sees(memory, pageTable, segment, contents)
    requires k + size <= segment.size && (segment.virtualAddr + k) % size == 0
    ensures segment.virtualAddr + k < MEMORY_SIZE && segment.inFileAddr + k + size <= |contents|
    ensures Accessible(pageTable, segment.virtualAddr + k, size, false)
    ensures var at := Physical(pageTable, segment.virtualAddr + k);
            0 <= at && at + size <= MEMORY_SIZE
            && memory[at..at + size] == contents[segment.inFileAddr + k..segment.inFileAddr + k + size]
  {
    var addr := segment.virtualAddr + k;
    LoadedBytesReadable(memory, pageTable, segment, contents, k);
    StaysInPage(addr, size);
    hide Mapped, Sees;
    var at := Physical(pageTable, addr);
    forall p | at <= p < at + size
      ensures p < MEMORY_SIZE && memory[p] == contents[segment.inFileAddr + k + (p - at)]
    {
      LoadedBytesReadable(memory, pageTable, segment, contents, k + (p - at));
      SamePage(addr, p - at);
    }
    SameSlice(memory, at, contents, segment.inFileAddr + k, size);
  }

  lemma SamePage(addr: nat, j: nat)
    requires addr % PAGE_SIZE + j < PAGE_SIZE
    ensures (addr + j) / PAGE_SIZE == addr / PAGE_SIZE && (addr + j) % PAGE_SIZE == addr % PAGE_SIZE + j
  {
  }

  lemma SameSlice(a: seq<byte>, i: nat, b: seq<byte>, j: nat, n: nat)
    requires i + n <= |a| && j + n <= |b| && forall p :: i <= p < i + n ==> a[p] == b[j + (p - i)]
    ensures a[i..i + n] == b[j..j + n]
  {
    var x, y := a[i..i + n], b[j..j + n];
    forall m | 0 <= m < n ensures x[m] == y[m] {
      assert x[m] == a[i + m];
    }
  }

  /** A loaded program may store to, and read from, every aligned address of its pages. */
  lemma LoadedWritable(pageTable: PageTable, addr: uint32, size: AccessSize, writing: bool)
    requires Mapped(pageTable) && (forall i :: 0 <= i < |pageTable| ==> !pageTable[i].readOnly)
    requires addr % size == 0 && addr < |pageTable| * PAGE_SIZE
    ensures Accessible(pageTable, addr, size, writing)
  {
    PhysicalInMemory(pageTable, addr);
  }

  /** What a program is loaded from and into. */
  ghost predicate Loadable(executable: OpenFile, noffH: NoffHeader, freeFrames: BitMap, memory: array<byte>)
    reads freeFrames, freeFrames.words
  {
    && memory.Length == MEMORY_SIZE && Usable(executable.hdr)
    && freeFrames.Valid() && freeFrames.numBits == NUM_PHYS_PAGES
    && |freeFrames.Contents()| + PagesNeeded(noffH) <= NUM_PHYS_PAGES
    && InRange(noffH.code, PagesNeeded(noffH), executable.hdr.numBytes)
    && InRange(noffH.initData, PagesNeeded(noffH), executable.hdr.numBytes)
    && Disjoint(noffH.code, noffH.initData)
  }

  /** Loads a program and reads, through its own page table, one, two or four bytes of its code or
      initialised data at `k`: the read meets no error and gives the bytes of the file, the first of them
      the least significant. */
  method LoadAndRead(executable: OpenFile, noffH: NoffHeader, freeFrames: BitMap, memory: array<byte>,
                     segment: Segment, k: nat, size: AccessSize)
    returns (ok: bool, value: int32)
    requires Loadable(executable, noffH, freeFrames, memory)
    requires (segment == noffH.code || segment == noffH.initData) && k + size <= segment.size
    requires (segment.virtualAddr + k) % size == 0
    modifies freeFrames.words, memory
    ensures ok && segment.inFileAddr + k + size <= |executable.Contents()|
    ensures var (f, a) := (executable.Contents(), segment.inFileAddr + k);
            && (size == 1 ==> value == if f[a] >= 128 then f[a] as int - 256 else f[a] as int)
            && (size == 2 ==> value == f[a] as int + 256 * f[a + 1] as int)
            && (size == 4 ==>
                  var u := f[a] as int + 256 * f[a + 1] as int + 65536 * f[a + 2] as int + 16777216 * f[a + 3] as int;
                  value == if u >= 0x8000_0000 then u - 0x1_0000_0000 else u)
  {
    hide Usable, Bytes, Marked, Frames, Mapped, Sees, PagesNeeded, Accessible, Physical, Fetched;
    var space := new AddrSpace(executable, noffH, freeFrames, memory);
    ghost var contents := executable.Contents();
    LoadedWide(memory[..], space.pageTable, segment, contents, k, size);
    var machine := new Machine(memory, space.pageTable);
    ok, value := machine.ReadMem(segment.virtualAddr + k, size);
    FetchedValue(contents[segment.inFileAddr + k..segment.inFileAddr + k + size]);
  }

  /** Loads a program, stores a value at an aligned address of its pages, and reads it back: neither
      access meets an error. */
  method LoadAndStore(executable: OpenFile, noffH: NoffHeader, freeFrames: BitMap, memory: array<byte>,
                      addr: uint32, size: AccessSize, value: int32)
    returns (stored: bool, read: bool, result: int32)
    requires Loadable(executable, noffH, freeFrames, memory)
    requires addr % size == 0 && addr < PagesNeeded(noffH) * PAGE_SIZE
    modifies freeFrames.words, memory
    ensures stored && read && result == Kept(value, size)
  {
    hide Usable, Bytes, Marked, Frames, Mapped, Sees, PagesNeeded, Accessible, Physical, Fetched, Stored, Kept, Splice,
      InNeither;
    var space := new AddrSpace(executable, noffH, freeFrames, memory);
    PagesFit(space.pageTable, space.numPages);
    LoadedWritable(space.pageTable, addr, size, true);
    var machine := new Machine(memory, space.pageTable);
    ghost var before := memory[..];
    stored := machine.WriteMem(addr, size, value);
    StillReadable(space.pageTable, machine.pageTable, addr, size);
    read, result := machine.ReadMem(addr, size);
    WrittenReadBack(before, Physical(space.pageTable, addr), value, size);
  }

  /** Every page has a frame of its own, so there are no more of them than frames. */
  lemma PagesFit(pageTable: PageTable, n: nat)
    requires Mapped(pageTable) && n == |pageTable|
    ensures n <= NUM_PHYS_PAGES
  {
    hide Mapped;
    FramesSize(pageTable);
    FramesInMemory(pageTable, n);
    SubsetSize(Frames(pageTable, n), Range(NUM_PHYS_PAGES));
  }

  lemma {:induction false} FramesInMemory(pageTable: PageTable, n: nat)
    requires Mapped(pageTable) && n <= |pageTable|
    ensures Frames(pageTable, n) <= Range(NUM_PHYS_PAGES)
  {
    hide Range;
    if n > 0 {
      FramesInMemory(pageTable, n - 1);
      assert 0 <= pageTable[n - 1].physicalPage < NUM_PHYS_PAGES;
    }
  }

  lemma StillReadable(before: PageTable, after: PageTable, addr: uint32, size: AccessSize)
    requires Accessible(before, addr, size, true) && Used(before, after, addr, true)
    ensures Accessible(after, addr, size, false) && Physical(after, addr) == Physical(before, addr)
  {
  }
}
