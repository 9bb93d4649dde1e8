/** Loading a program into scattered frames of main memory, page by page (userprog/addrspace.cc), and
    reading it back through the page table (machine/translate.cc). */
module AddrSpaces {
  import opened Sectors
  import opened FileLayout
  import opened BitMaps
  import opened OpenFiles

  const PAGE_SIZE := SECTOR_SIZE
  const NUM_PHYS_PAGES := 32
  const MEMORY_SIZE := NUM_PHYS_PAGES * PAGE_SIZE
  const USER_STACK_SIZE := 1024

  datatype TranslationEntry = TranslationEntry(
    virtualPage: int, physicalPage: int, valid: bool, use: bool, dirty: bool, readOnly: bool)

  type PageTable = seq<TranslationEntry>

  datatype Segment = Segment(virtualAddr: nat, inFileAddr: nat, size: nat)

  /** The header of an object file, past the check of its magic number. */
  datatype NoffHeader = NoffHeader(code: Segment, initData: Segment, uninitData: Segment)

  function PagesNeeded(noffH: NoffHeader): nat {
    DivRoundUp(noffH.code.size + noffH.initData.size + noffH.uninitData.size + USER_STACK_SIZE, PAGE_SIZE)
  }

  // ---- The page table ----

  /** The frames of the first `n` pages. */
  ghost function Frames(pageTable: PageTable, n: nat): set<int>
    requires n <= |pageTable|
  {
    if n == 0 then {} else Frames(pageTable, n - 1) + {pageTable[n - 1].physicalPage}
  }

  /** Every page has a frame of its own. */
  ghost predicate Mapped(pageTable: PageTable) {
    && (forall i :: 0 <= i < |pageTable| ==> pageTable[i].valid && 0 <= pageTable[i].physicalPage < NUM_PHYS_PAGES)
    && (forall i, j :: 0 <= i < j < |pageTable| ==> pageTable[i].physicalPage != pageTable[j].physicalPage)
  }

  /** Where a virtual address lies in main memory. */
  function Physical(pageTable: PageTable, addr: nat): int
    requires addr / PAGE_SIZE < |pageTable|
  {
    pageTable[addr / PAGE_SIZE].physicalPage * PAGE_SIZE + addr % PAGE_SIZE
  }

  lemma PhysicalInMemory(pageTable: PageTable, addr: nat)
    requires Mapped(pageTable) && addr < |pageTable| * PAGE_SIZE
    ensures addr / PAGE_SIZE < |pageTable| && 0 <= Physical(pageTable, addr) < MEMORY_SIZE
  {
  }

  /** The byte a program sees at a virtual address. */
  ghost function ByteAt(memory: seq<byte>, pageTable: PageTable, addr: nat): byte
    requires |memory| == MEMORY_SIZE && Mapped(pageTable) && addr < |pageTable| * PAGE_SIZE
  {
    PhysicalInMemory(pageTable, addr);
    memory[Physical(pageTable, addr)]
  }

  // ---- Loading ----

  /** Bytes written into the frame of page `i`, from an offset on. */
  lemma PageWritten(memory: seq<byte>, pageTable: PageTable, i: nat, offset: nat, data: seq<byte>, addr: nat)
    requires |memory| == MEMORY_SIZE && Mapped(pageTable) && i < |pageTable| && offset + |data| <= PAGE_SIZE
    requires addr < |pageTable| * PAGE_SIZE
    ensures pageTable[i].physicalPage * PAGE_SIZE + offset + |data| <= MEMORY_SIZE
    ensures var from := i * PAGE_SIZE + offset;
            ByteAt(Splice(memory, pageTable[i].physicalPage * PAGE_SIZE + offset, data), pageTable, addr) ==
            if from <= addr < from + |data| then data[addr - from] else ByteAt(memory, pageTable, addr)
  {
    var page := addr / PAGE_SIZE;
    assert addr == page * PAGE_SIZE + addr % PAGE_SIZE;
    if page != i {
      assert pageTable[page].physicalPage != pageTable[i].physicalPage;
      DifferentFrames(pageTable[page].physicalPage, addr % PAGE_SIZE, pageTable[i].physicalPage, offset, |data|);
    }
  }

  lemma DifferentFrames(f: nat, at: nat, g: nat, offset: nat, n: nat)
    requires f != g && at < PAGE_SIZE && offset + n <= PAGE_SIZE
    ensures !(g * PAGE_SIZE + offset <= f * PAGE_SIZE + at < g * PAGE_SIZE + offset + n)
  {
  }

  /** The segment's pages exist, and its bytes are in the file. */
  ghost predicate InRange(segment: Segment, pages: nat, fileLength: nat) {
    segment.size > 0 ==>
      segment.virtualAddr + segment.size <= pages * PAGE_SIZE && segment.inFileAddr + segment.size <= fileLength
  }

  predicate Inside(segment: Segment, n: nat, addr: nat) {
    segment.virtualAddr <= addr < segment.virtualAddr + n
  }

  /** The first `n` bytes of a segment have been loaded, and nothing else has changed that the program
      can see. */
  ghost predicate Loaded(before: seq<byte>, after: seq<byte>, pageTable: PageTable, segment: Segment,
                         contents: seq<byte>, n: nat)
    requires |before| == MEMORY_SIZE && |after| == MEMORY_SIZE && Mapped(pageTable)
    requires segment.inFileAddr + n <= |contents|
  {
    forall addr: nat :: addr < |pageTable| * PAGE_SIZE ==>
      ByteAt(after, pageTable, addr) ==
      (if Inside(segment, n, addr) then contents[segment.inFileAddr + (addr - segment.virtualAddr)]
       else ByteAt(before, pageTable, addr))
  }

  lemma LoadedMore(before: seq<byte>, after: seq<byte>, pageTable: PageTable, segment: Segment, contents: seq<byte>,
                   n: nat, i: nat, offset: nat, m: nat)
    requires |before| == MEMORY_SIZE && |after| == MEMORY_SIZE && Mapped(pageTable)
    requires segment.inFileAddr + n + m <= |contents| && Loaded(before, after, pageTable, segment, contents, n)
    requires i < |pageTable| && offset + m <= PAGE_SIZE && i * PAGE_SIZE + offset == segment.virtualAddr + n
    ensures 0 <= pageTable[i].physicalPage && pageTable[i].physicalPage * PAGE_SIZE + offset + m <= MEMORY_SIZE
    ensures var data := contents[segment.inFileAddr + n..segment.inFileAddr + n + m];
            Loaded(before, Splice(after, pageTable[i].physicalPage * PAGE_SIZE + offset, data), pageTable, segment,
                   contents, n + m)
  {
    var data := contents[segment.inFileAddr + n..segment.inFileAddr + n + m];
    PageWritten(after, pageTable, i, offset, data, i * PAGE_SIZE);
    hide ByteAt, Splice;
    var after' := Splice(after, pageTable[i].physicalPage * PAGE_SIZE + offset, data);
    forall addr: nat | addr < |pageTable| * PAGE_SIZE
      ensures ByteAt(after', pageTable, addr) ==
              if Inside(segment, n + m, addr) then contents[segment.inFileAddr + (addr - segment.virtualAddr)]
              else ByteAt(before, pageTable, addr)
    {
      PageWritten(after, pageTable, i, offset, data, addr);
    }
  }

  lemma NothingLoaded(memory: seq<byte>, pageTable: PageTable, segment: Segment, contents: seq<byte>)
    requires |memory| == MEMORY_SIZE && Mapped(pageTable) && segment.inFileAddr <= |contents|
    ensures Loaded(memory, memory, pageTable, segment, contents, 0)
  {
    hide ByteAt;
  }

  /** Bytes outside a program's frames are the same. */
  ghost predicate OthersKept(before: seq<byte>, after: seq<byte>, pageTable: PageTable)
    requires |before| == MEMORY_SIZE && |after| == MEMORY_SIZE
  {
    forall p :: 0 <= p < MEMORY_SIZE && p / PAGE_SIZE !in Frames(pageTable, |pageTable|) ==> after[p] == before[p]
  }

  lemma SpliceKeepsOthers(before: seq<byte>, after: seq<byte>, pageTable: PageTable, i: nat, offset: nat,
                          data: seq<byte>)
    requires |before| == MEMORY_SIZE && |after| == MEMORY_SIZE && OthersKept(before, after, pageTable)
    requires i < |pageTable| && 0 <= pageTable[i].physicalPage && offset + |data| <= PAGE_SIZE
    requires pageTable[i].physicalPage * PAGE_SIZE + offset + |data| <= MEMORY_SIZE
    ensures OthersKept(before, Splice(after, pageTable[i].physicalPage * PAGE_SIZE + offset, data), pageTable)
  {
    hide Frames;
    FramesHas(pageTable, |pageTable|, i);
    var frame := pageTable[i].physicalPage;
    var after' := Splice(after, frame * PAGE_SIZE + offset, data);
    forall p | 0 <= p < MEMORY_SIZE && p / PAGE_SIZE !in Frames(pageTable, |pageTable|)
      ensures after'[p] == before[p]
    {
      assert p == p / PAGE_SIZE * PAGE_SIZE + p % PAGE_SIZE;
      DifferentFrames(p / PAGE_SIZE, p % PAGE_SIZE, frame, offset, |data|);
    }
  }

  /** What loading a segment leaves alone: other programs' bytes, and its own outside the segment. */
  ghost predicate Spared(before: seq<byte>, after: seq<byte>, pageTable: PageTable, segment: Segment)
    requires |before| == MEMORY_SIZE && |after| == MEMORY_SIZE && Mapped(pageTable)
  {
    && OthersKept(before, after, pageTable)
    && forall addr: nat :: addr < |pageTable| * PAGE_SIZE && !Inside(segment, segment.size, addr) ==>
         ByteAt(after, pageTable, addr) == ByteAt(before, pageTable, addr)
  }

  lemma LoadedSpares(before: seq<byte>, after: seq<byte>, pageTable: PageTable, segment: Segment, contents: seq<byte>)
    requires |before| == MEMORY_SIZE && |after| == MEMORY_SIZE && Mapped(pageTable)
    requires segment.inFileAddr + segment.size <= |contents| && OthersKept(before, after, pageTable)
    requires Loaded(before, after, pageTable, segment, contents, segment.size)
    ensures Spared(before, after, pageTable, segment)
  {
    hide ByteAt, OthersKept;
  }

  lemma SpareSame(memory: seq<byte>, pageTable: PageTable, segment: Segment)
    requires |memory| == MEMORY_SIZE && Mapped(pageTable)
    ensures Spared(memory, memory, pageTable, segment)
  {
  }

  /** The low part of memory has been filled with zeros, as much as the program is large, wherever its own
      frames are. */
  ghost predicate Zeroed(before: seq<byte>, after: seq<byte>, size: nat)
    requires |before| == MEMORY_SIZE && |after| == MEMORY_SIZE
  {
    forall p :: 0 <= p < MEMORY_SIZE ==> after[p] == if p < size then 0 else before[p]
  }

  predicate InNeither(code: Segment, data: Segment, addr: nat) {
    !Inside(code, code.size, addr) && !Inside(data, data.size, addr)
  }

  /** Everything outside the two segments is as the zeros have left it. */
  lemma RestZeroed(before: seq<byte>, zeros: seq<byte>, after1: seq<byte>, after2: seq<byte>, pageTable: PageTable,
                   code: Segment, data: Segment, size: nat)
    requires |before| == |zeros| == |after1| == |after2| == MEMORY_SIZE && Mapped(pageTable)
    requires Zeroed(before, zeros, size)
    requires Spared(zeros, after1, pageTable, code) && Spared(after1, after2, pageTable, data)
    ensures forall p :: 0 <= p < MEMORY_SIZE && p / PAGE_SIZE !in Frames(pageTable, |pageTable|) ==>
              after2[p] == if p < size then 0 else before[p]
    ensures forall addr: nat :: addr < |pageTable| * PAGE_SIZE && InNeither(code, data, addr) ==>
                var p := Physical(pageTable, addr);
                0 <= p < MEMORY_SIZE && after2[p] == if p < size then 0 else before[p]
  {
    hide Frames, Mapped;
    forall addr: nat | addr < |pageTable| * PAGE_SIZE && InNeither(code, data, addr)
      ensures var p := Physical(pageTable, addr);
              0 <= p < MEMORY_SIZE && after2[p] == if p < size then 0 else before[p]
    {
      PhysicalInMemory(pageTable, addr);
      assert ByteAt(after2, pageTable, addr) == ByteAt(after1, pageTable, addr) == ByteAt(zeros, pageTable, addr);
    }
  }

  /** Every page is where the table says, may be written, and has not been used. */
  ghost predicate Unused(pageTable: PageTable) {
    forall i :: 0 <= i < |pageTable| ==>
      && pageTable[i].virtualPage == i && pageTable[i].valid
      && !pageTable[i].readOnly && !pageTable[i].use && !pageTable[i].dirty
  }

  lemma UnusedIs(pageTable: PageTable)
    requires Unused(pageTable)
    ensures forall i :: 0 <= i < |pageTable| ==>
              pageTable[i].virtualPage == i && pageTable[i].valid
              && !pageTable[i].readOnly && !pageTable[i].use && !pageTable[i].dirty
  {
  }

  /** As many pages as the parts of the program and its stack fill. */
  lemma PagesEnough(noffH: NoffHeader)
    ensures var size := noffH.code.size + noffH.initData.size + noffH.uninitData.size + 1024;
            128 * (PagesNeeded(noffH) - 1) < size <= 128 * PagesNeeded(noffH)
  {
  }

  /** The segments share no address. */
  predicate Disjoint(a: Segment, b: Segment) {
    a.size == 0 || b.size == 0 || a.virtualAddr + a.size <= b.virtualAddr || b.virtualAddr + b.size <= a.virtualAddr
  }

  /** The program sees the bytes of the file throughout a segment. */
  ghost predicate Sees(memory: seq<byte>, pageTable: PageTable, segment: Segment, contents: seq<byte>)
    requires |memory| == MEMORY_SIZE && Mapped(pageTable) && InRange(segment, |pageTable|, |contents|)
  {
    forall addr: nat :: Inside(segment, segment.size, addr) ==>
      ByteAt(memory, pageTable, addr) == contents[segment.inFileAddr + (addr - segment.virtualAddr)]
  }

  lemma LoadedSees(before: seq<byte>, after: seq<byte>, pageTable: PageTable, segment: Segment, contents: seq<byte>)
    requires |before| == MEMORY_SIZE && |after| == MEMORY_SIZE && Mapped(pageTable)
    requires InRange(segment, |pageTable|, |contents|) && segment.size > 0
    requires Loaded(before, after, pageTable, segment, contents, segment.size)
    ensures Sees(after, pageTable, segment, contents)
  {
    hide ByteAt;
  }

  lemma OtherStillSeen(before: seq<byte>, after: seq<byte>, pageTable: PageTable, segment: Segment, other: Segment,
                       contents: seq<byte>)
    requires |before| == MEMORY_SIZE && |after| == MEMORY_SIZE && Mapped(pageTable)
    requires InRange(segment, |pageTable|, |contents|) && InRange(other, |pageTable|, |contents|)
    requires segment.size > 0 && Disjoint(segment, other)
    requires Loaded(before, after, pageTable, segment, contents, segment.size)
    requires Sees(before, pageTable, other, contents)
    ensures Sees(after, pageTable, other, contents)
  {
    hide ByteAt;
  }

  class AddrSpace {
    var pageTable: PageTable
    var numPages: nat

    /** Loads a program whose segments are disjoint and lie within its pages and its file, while there
        are frames enough: it gets that many frames that were free, and sees at each address of the code
        and of the initialised data the byte of the file that belongs there. */
    constructor (executable: OpenFile, noffH: NoffHeader, freeFrames: BitMap, memory: array<byte>)
      requires memory.Length == MEMORY_SIZE && Usable(executable.hdr)
      requires freeFrames.Valid() && freeFrames.numBits == NUM_PHYS_PAGES
      requires |freeFrames.Contents()| + PagesNeeded(noffH) <= NUM_PHYS_PAGES
      requires InRange(noffH.code, PagesNeeded(noffH), executable.hdr.numBytes)
      requires InRange(noffH.initData, PagesNeeded(noffH), executable.hdr.numBytes)
      requires Disjoint(noffH.code, noffH.initData)
      modifies freeFrames.words, memory
      ensures numPages == |pageTable| == PagesNeeded(noffH) && Mapped(pageTable)
      ensures forall i :: 0 <= i < numPages ==>
                pageTable[i].virtualPage == i && pageTable[i].valid
                && !pageTable[i].readOnly && !pageTable[i].use && !pageTable[i].dirty
      ensures freeFrames.Valid()
      ensures Frames(pageTable, numPages) !! old(freeFrames.Contents())
      ensures freeFrames.Contents() == old(freeFrames.Contents()) + Frames(pageTable, numPages)
      ensures Sees(memory[..], pageTable, noffH.code, executable.Contents())
      ensures Sees(memory[..], pageTable, noffH.initData, executable.Contents())
      ensures forall p :: 0 <= p < MEMORY_SIZE && p / PAGE_SIZE !in Frames(pageTable, numPages) ==>
                memory[..][p] == if p < PAGE_SIZE * numPages then 0 else old(memory[..])[p]
      ensures forall addr: nat :: addr < numPages * PAGE_SIZE && InNeither(noffH.code, noffH.initData, addr) ==>
                  var p := Physical(pageTable, addr);
                  0 <= p < MEMORY_SIZE && memory[..][p] == if p < PAGE_SIZE * numPages then 0 else old(memory[..])[p]
    {
      numPages := PagesNeeded(noffH);
      pageTable := [];
      new;
      hide PagesNeeded, Sees, Loaded, Mapped, Frames, Usable, Marked, Bytes, InRange, Unused, OthersKept, Spared,
        Zeroed, InNeither, Physical;
      AllocateFrames(freeFrames);
      UnusedIs(pageTable);
      ghost var memory0 := memory[..];
      forall k | 0 <= k < numPages * PAGE_SIZE {
        memory[k] := 0;
      }
      ghost var zeros, contents := memory[..], executable.Contents();
      assert Zeroed(memory0, zeros, PAGE_SIZE * numPages) by { ZeroedIs(memory0, zeros, PAGE_SIZE * numPages); }
      if noffH.code.size > 0 {
        LoadSegment(executable, noffH.code, memory);
        LoadedSees(zeros, memory[..], pageTable, noffH.code, contents);
      } else {
        NothingToSee(memory[..], pageTable, noffH.code, contents);
        SpareSame(memory[..], pageTable, noffH.code);
      }
      ghost var before := memory[..];
      if noffH.initData.size > 0 {
        LoadSegment(executable, noffH.initData, memory);
        LoadedSees(before, memory[..], pageTable, noffH.initData, contents);
        OtherStillSeen(before, memory[..], pageTable, noffH.initData, noffH.code, contents);
      } else {
        NothingToSee(memory[..], pageTable, noffH.initData, contents);
        SpareSame(memory[..], pageTable, noffH.initData);
      }
      RestZeroed(memory0, zeros, before, memory[..], pageTable, noffH.code, noffH.initData, PAGE_SIZE * numPages);
    }

    /** A free frame for every page. */
    method AllocateFrames(freeFrames: BitMap)
      requires freeFrames.Valid() && freeFrames.numBits == NUM_PHYS_PAGES && pageTable == []
      requires |freeFrames.Contents()| + numPages <= NUM_PHYS_PAGES
      modifies this`pageTable, freeFrames.words
      ensures |pageTable| == numPages && Mapped(pageTable) && Unused(pageTable) && freeFrames.Valid()
      ensures Frames(pageTable, numPages) !! old(freeFrames.Contents())
      ensures freeFrames.Contents() == old(freeFrames.Contents()) + Frames(pageTable, numPages)
    {
      hide Frames, Mapped, FreshFrames, Marked, Unused;
      ghost var before := freeFrames.Contents();
      NoFrames(before);
      var i := 0;
      while i < numPages
        invariant 0 <= i <= numPages && |pageTable| == i && freeFrames.Valid()
        invariant Mapped(pageTable) && FreshFrames(pageTable, before) && Unused(pageTable)
        invariant freeFrames.Contents() == before + Frames(pageTable, i)
      {
        AddPage(freeFrames, i, before);
        i := i + 1;
      }
      AreFresh(pageTable, before);
    }

    /** One round of the loop: page `i` gets a free frame. */
    method AddPage(freeFrames: BitMap, i: nat, ghost before: set<int>)
      requires freeFrames.Valid() && freeFrames.numBits == NUM_PHYS_PAGES && |pageTable| == i
      requires |before| + i < NUM_PHYS_PAGES && Mapped(pageTable) && FreshFrames(pageTable, before) && Unused(pageTable)
      requires freeFrames.Contents() == before + Frames(pageTable, i)
      modifies this`pageTable, freeFrames.words
      ensures freeFrames.Valid() && |pageTable| == i + 1 && Mapped(pageTable) && FreshFrames(pageTable, before)
      ensures Unused(pageTable)
      ensures freeFrames.Contents() == before + Frames(pageTable, i + 1)
    {
      hide Frames, Mapped, FreshFrames, Marked;
      FramesSize(pageTable);
      SomeBitClear(NUM_PHYS_PAGES, before, Frames(pageTable, i));
      var frame := freeFrames.Find();
      assert frame != -1;
      NextFrame(pageTable, before, TranslationEntry(i, frame, true, false, false, false));
      pageTable := pageTable + [TranslationEntry(i, frame, true, false, false, false)];
    }

    /** Copies a segment from the file, page by page. */
    method LoadSegment(executable: OpenFile, segment: Segment, memory: array<byte>)
      requires memory.Length == MEMORY_SIZE && Usable(executable.hdr) && Mapped(pageTable)
      requires segment.size > 0 && InRange(segment, |pageTable|, executable.hdr.numBytes)
      modifies memory
      ensures Loaded(old(memory[..]), memory[..], pageTable, segment, executable.Contents(), segment.size)
      ensures Spared(old(memory[..]), memory[..], pageTable, segment)
    {
      hide Loaded, Mapped, Usable, Bytes, Splice, OthersKept, Spared;
      ghost var before, contents := memory[..], executable.Contents();
      var startPage := segment.virtualAddr / PAGE_SIZE;
      var endPage := (segment.virtualAddr + segment.size - 1) / PAGE_SIZE;
      var bytesRead := 0;
      NothingLoaded(before, pageTable, segment, contents);
      SameOthers(before, pageTable);
      var i := startPage;
      while i <= endPage
        invariant startPage <= i <= endPage + 1
        invariant bytesRead == Covered(segment, i)
        invariant Loaded(before, memory[..], pageTable, segment, contents, bytesRead)
        invariant OthersKept(before, memory[..], pageTable)
      {
        var pageOffset := if i == startPage then segment.virtualAddr % PAGE_SIZE else 0;
        var bytesToRead := Min(PAGE_SIZE - pageOffset, segment.size - bytesRead);
        NextPage(segment, i);
        LoadedMore(before, memory[..], pageTable, segment, contents, bytesRead, i, pageOffset, bytesToRead);
        var physicalAddr := pageTable[i].physicalPage * PAGE_SIZE + pageOffset;
        SpliceKeepsOthers(before, memory[..], pageTable, i, pageOffset,
                          Slice(contents, bytesToRead, segment.inFileAddr + bytesRead));
        var _ := executable.ReadAt(memory, physicalAddr, bytesToRead, segment.inFileAddr + bytesRead);
        bytesRead := bytesRead + bytesToRead;
        i := i + 1;
      }
      AllCovered(segment);
      LoadedSpares(before, memory[..], pageTable, segment, contents);
    }
  }

  lemma ZeroedIs(before: seq<byte>, after: seq<byte>, size: nat)
    requires |before| == MEMORY_SIZE && |after| == MEMORY_SIZE
    requires forall p :: 0 <= p < MEMORY_SIZE ==> after[p] == if p < size then 0 else before[p]
    ensures Zeroed(before, after, size)
  {
  }

  lemma SameOthers(memory: seq<byte>, pageTable: PageTable)
    requires |memory| == MEMORY_SIZE
    ensures OthersKept(memory, memory, pageTable)
  {
  }

  lemma NothingToSee(memory: seq<byte>, pageTable: PageTable, segment: Segment, contents: seq<byte>)
    requires |memory| == MEMORY_SIZE && Mapped(pageTable) && segment.size == 0
    ensures Sees(memory, pageTable, segment, contents)
  {
  }

  /** How much of a segment lies before page `i`. */
  function Covered(segment: Segment, i: nat): nat {
    if i * PAGE_SIZE <= segment.virtualAddr then 0
    else if i * PAGE_SIZE >= segment.virtualAddr + segment.size then segment.size
    else i * PAGE_SIZE - segment.virtualAddr
  }

  /** What the loop computes for page `i` brings it to the next page. */
  lemma NextPage(segment: Segment, i: nat)
    requires segment.size > 0
    requires segment.virtualAddr / PAGE_SIZE <= i <= (segment.virtualAddr + segment.size - 1) / PAGE_SIZE
    ensures var offset := if i == segment.virtualAddr / PAGE_SIZE then segment.virtualAddr % PAGE_SIZE else 0;
            var n := Min(PAGE_SIZE - offset, segment.size - Covered(segment, i));
            && n >= 0 && offset + n <= PAGE_SIZE && Covered(segment, i + 1) == Covered(segment, i) + n
            && i * PAGE_SIZE + offset == segment.virtualAddr + Covered(segment, i)
            && Covered(segment, i) + n <= segment.size
  {
  }

  lemma AllCovered(segment: Segment)
    requires segment.size > 0
    ensures Covered(segment, (segment.virtualAddr + segment.size - 1) / PAGE_SIZE + 1) == segment.size
  {
  }

  /** The pages' frames are new. */
  ghost predicate FreshFrames(pageTable: PageTable, before: set<int>) {
    Frames(pageTable, |pageTable|) !! before
  }

  lemma AreFresh(pageTable: PageTable, before: set<int>)
    requires FreshFrames(pageTable, before)
    ensures Frames(pageTable, |pageTable|) !! before
  {
  }

  lemma NoFrames(before: set<int>)
    ensures Mapped([]) && FreshFrames([], before) && Unused([]) && Frames([], 0) == {}
  {
  }

  lemma {:induction false} FramesHas(pageTable: PageTable, n: nat, i: nat)
    requires i < n <= |pageTable|
    ensures pageTable[i].physicalPage in Frames(pageTable, n)
  {
    if i < n - 1 { FramesHas(pageTable, n - 1, i); }
  }

  lemma {:induction false} FramesPrefix(pageTable: PageTable, e: TranslationEntry, n: nat)
    requires n <= |pageTable|
    ensures Frames(pageTable + [e], n) == Frames(pageTable, n)
  {
    if n > 0 { FramesPrefix(pageTable, e, n - 1); }
  }

  lemma {:induction false} FramesMember(pageTable: PageTable, n: nat, x: int) returns (i: nat)
    requires n <= |pageTable| && x in Frames(pageTable, n)
    ensures i < n && pageTable[i].physicalPage == x
  {
    if pageTable[n - 1].physicalPage == x { i := n - 1; } else { i := FramesMember(pageTable, n - 1, x); }
  }

  lemma {:induction false} FramesCount(pageTable: PageTable, n: nat)
    requires n <= |pageTable| && Mapped(pageTable)
    ensures |Frames(pageTable, n)| == n
  {
    if n > 0 {
      FramesCount(pageTable, n - 1);
      if pageTable[n - 1].physicalPage in Frames(pageTable, n - 1) {
        var i := FramesMember(pageTable, n - 1, pageTable[n - 1].physicalPage);
        assert false;
      }
    }
  }

  lemma FramesSize(pageTable: PageTable)
    requires Mapped(pageTable)
    ensures |Frames(pageTable, |pageTable|)| == |pageTable|
  {
    FramesCount(pageTable, |pageTable|);
  }

  lemma NextFrame(pageTable: PageTable, before: set<int>, e: TranslationEntry)
    requires Mapped(pageTable) && FreshFrames(pageTable, before)
    requires e.valid && 0 <= e.physicalPage < NUM_PHYS_PAGES
    requires e.physicalPage !in before + Frames(pageTable, |pageTable|)
    requires Unused(pageTable) && e.virtualPage == |pageTable| && !e.readOnly && !e.use && !e.dirty
    ensures Mapped(pageTable + [e]) && FreshFrames(pageTable + [e], before) && Unused(pageTable + [e])
    ensures Frames(pageTable + [e], |pageTable| + 1) == Frames(pageTable, |pageTable|) + {e.physicalPage}
  {
    hide Mapped;
    NextMapped(pageTable, e);
    FramesPrefix(pageTable, e, |pageTable|);
    OneMoreApart(Frames(pageTable, |pageTable|), e.physicalPage, before);
    assert Frames(pageTable + [e], |pageTable| + 1) == Frames(pageTable, |pageTable|) + {e.physicalPage};
  }

  lemma OneMoreApart(a: set<int>, x: int, b: set<int>)
    requires a !! b && x !in b
    ensures (a + {x}) !! b
  {
  }

  lemma NextMapped(pageTable: PageTable, e: TranslationEntry)
    requires Mapped(pageTable) && e.valid && 0 <= e.physicalPage < NUM_PHYS_PAGES
    requires e.physicalPage !in Frames(pageTable, |pageTable|)
    ensures Mapped(pageTable + [e])
  {
    hide Frames;
    forall i | 0 <= i < |pageTable|
      ensures pageTable[i].physicalPage != e.physicalPage
    {
      FramesHas(pageTable, |pageTable|, i);
    }
  }
}
