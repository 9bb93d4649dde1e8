/** The linked-block disk (FileSystem.c and Structures.c of the ASCII server): blocks of 256 bytes whose
    last byte names the next block, a directory of 17-byte slots in block 0, and in the last byte of
    block 0 the number of the next fresh block. The disk is a file of bytes that grows. */
module LinkedDisks {
  import opened Sectors

  const SIZE_BLOCK := 256
  const DATA_PACKET := 255
  const SLOT_SIZE := 17
  const NAME_SIZE := 16
  const COUNT_BLOCKS := 255
  const END_MARK := 255

  /** The slots that existFile can find an entry in, out of the fifteen that fit. */
  const FOUND_SLOTS := 14
  const SLOTS := 15

  /** A stored file. */
  datatype File = File(name: CString, content: CString)

  // ---- What the disk should look like ----

  /** A file ends with a block that is not full, if need be an empty one. */
  function BlockCount(content: seq<byte>): nat {
    |content| / DATA_PACKET + 1
  }

  /** Part `j` of a file, padded with zeros. */
  function Chunk(content: seq<byte>, j: nat): (r: seq<byte>)
    ensures |r| == DATA_PACKET
  {
    seq(DATA_PACKET, k requires 0 <= k < DATA_PACKET =>
      if j * DATA_PACKET + k < |content| then content[j * DATA_PACKET + k] else 0)
  }

  /** The last byte of part `j` of a file whose first block is `start`. */
  function NextOf(start: nat, content: seq<byte>, j: nat): byte
    requires start + j + 1 <= COUNT_BLOCKS
  {
    if j + 1 == BlockCount(content) then END_MARK else start + j + 1
  }

  /** The first `n` blocks of a file. */
  function FileBlocks(start: nat, content: seq<byte>, n: nat): (r: seq<byte>)
    requires start + n <= COUNT_BLOCKS
    ensures |r| == SIZE_BLOCK * n
  {
    if n == 0 then []
    else FileBlocks(start, content, n - 1) + (Chunk(content, n - 1) + [NextOf(start, content, n - 1)])
  }

  /** The next fresh block after these files. */
  function Counter(files: seq<File>): (n: nat)
    ensures n >= 1 + |files|
  {
    if files == [] then 1 else Counter(files[..|files| - 1]) + BlockCount(files[|files| - 1].content)
  }

  /** The files' blocks, one file after the other. */
  function Blocks(files: seq<File>): (r: seq<byte>)
    requires Counter(files) <= COUNT_BLOCKS
    ensures |r| == SIZE_BLOCK * (Counter(files) - 1)
  {
    if files == [] then []
    else
      var before, content := files[..|files| - 1], files[|files| - 1].content;
      Blocks(before) + FileBlocks(Counter(before), content, BlockCount(content))
  }

  /** Files that a disk can hold: few enough, small enough, and under different names. */
  ghost predicate Fits(files: seq<File>) {
    && |files| <= SLOTS && Counter(files) <= COUNT_BLOCKS
    && (forall i :: 0 <= i < |files| ==> 1 <= |files[i].name| < NAME_SIZE)
    && (forall i, j :: 0 <= i < j < |files| ==> files[i].name != files[j].name)
  }

  /** The disk holds exactly these files, in this order. */
  ghost predicate Holds(bytes: seq<byte>, files: seq<File>) {
    Fits(files) && bytes == DiskImage(files)
  }

  /** Some slot that can be found holds the name. */
  ghost predicate Findable(files: seq<File>, name: CString) {
    exists i :: 0 <= i < |files| && i < FOUND_SLOTS && files[i].name == name
  }

  /** writeFile goes on past the checks of the name. */
  ghost predicate Accepted(files: seq<File>, name: CString) {
    1 <= |name| < NAME_SIZE && !Findable(files, name)
  }

  /** A name as it lies in a slot. */
  function NameField(name: CString): (r: seq<byte>)
    ensures |r| == NAME_SIZE
  {
    seq(NAME_SIZE, k requires 0 <= k < NAME_SIZE => if k < |name| then name[k] else 0)
  }

  /** An entry of the directory: a name and the first block. */
  datatype Entry = Entry(name: CString, start: byte)

  function Entries(files: seq<File>): (r: seq<Entry>)
    requires Counter(files) <= COUNT_BLOCKS
    ensures |r| == |files|
  {
    if files == [] then []
    else
      var before := files[..|files| - 1];
      Entries(before) + [Entry(files[|files| - 1].name, Counter(before))]
  }

  /** Slot `i`: a name and the first block, or zeros. */
  function SlotField(entries: seq<Entry>, i: nat): (r: seq<byte>)
    ensures |r| == SLOT_SIZE
  {
    if i < |entries| then NameField(entries[i].name) + [entries[i].start] else seq(SLOT_SIZE, _ => 0)
  }

  /** Block 0: fifteen slots and the counter. */
  function DirectoryBlock(entries: seq<Entry>, counter: byte): (r: seq<byte>)
    ensures |r| == SIZE_BLOCK
  {
    seq(SIZE_BLOCK, p requires 0 <= p < SIZE_BLOCK =>
      if p == SIZE_BLOCK - 1 then counter else SlotField(entries, p / SLOT_SIZE)[p % SLOT_SIZE])
  }

  function DiskImage(files: seq<File>): (r: seq<byte>)
    requires Counter(files) <= COUNT_BLOCKS
    ensures |r| == SIZE_BLOCK * Counter(files)
  {
    DirectoryBlock(Entries(files), Counter(files)) + Blocks(files)
  }

  // ---- Bytes of the disk ----

  /** Bytes written over a file from a position on; the file grows as needed. */
  function Overwrite(bytes: seq<byte>, at: nat, data: seq<byte>): (r: seq<byte>)
    requires at <= |bytes|
    ensures |r| == if at + |data| <= |bytes| then |bytes| else at + |data|
    ensures forall p :: 0 <= p < |r| ==> r[p] == if at <= p < at + |data| then data[p - at] else bytes[p]
  {
    bytes[..at] + data + (if at + |data| <= |bytes| then bytes[at + |data|..] else [])
  }

  /** Up to sixteen bytes read into a buffer; at the end of the file the rest of it stays. */
  function ReadName(bytes: seq<byte>, at: nat, buffer: seq<byte>): (r: seq<byte>)
    requires |buffer| == NAME_SIZE
    ensures |r| == NAME_SIZE
  {
    seq(NAME_SIZE, k requires 0 <= k < NAME_SIZE => if at + k < |bytes| then bytes[at + k] else buffer[k])
  }

  /** strcmp(name, buffer) == 0; a longer name differs from every string that ends within the buffer. */
  predicate SameString(name: CString, buffer: seq<byte>)
    requires |buffer| == NAME_SIZE
  {
    |name| < NAME_SIZE && buffer[..|name|] == name && buffer[|name|] == 0
  }

  /** The last byte of block `b`. */
  function NextByte(bytes: seq<byte>, b: nat): byte
    requires b * SIZE_BLOCK + DATA_PACKET < |bytes|
  {
    bytes[b * SIZE_BLOCK + DATA_PACKET]
  }

  /** Every complete block beyond the directory has a next byte that is not 0. */
  ghost predicate NoHoles(bytes: seq<byte>) {
    forall b :: 1 <= b < COUNT_BLOCKS && b * SIZE_BLOCK + DATA_PACKET < |bytes| ==> NextByte(bytes, b) != 0
  }

  /** Block `b` is complete and its next byte is 0. */
  predicate Hole(bytes: seq<byte>, b: nat) {
    256 * b + 255 < |bytes| && bytes[256 * b + 255] == 0
  }

  /** The first complete block with next byte 0, from block `b` on, or none. */
  function HoleFrom(bytes: seq<byte>, b: nat): (r: nat)
    requires 1 <= b <= COUNT_BLOCKS
    ensures r == 0 || (b <= r < COUNT_BLOCKS && r * SIZE_BLOCK + DATA_PACKET < |bytes| && NextByte(bytes, r) == 0)
    ensures NoHoles(bytes) ==> r == 0
    decreases COUNT_BLOCKS - b
  {
    if b == COUNT_BLOCKS || b * SIZE_BLOCK + DATA_PACKET >= |bytes| then 0
    else if NextByte(bytes, b) == 0 then b
    else HoleFrom(bytes, b + 1)
  }

  /** The bytes of a buffer before its first NUL. */
  function Text(data: seq<byte>): (r: CString)
  {
    if data == [] || data[0] == 0 then [] else [data[0]] + Text(data[1..])
  }

  // ---- What the routines do to the bytes ----

  /** The outcome of checkBlockAvaible: a block, and the disk with it taken. With no hole and the
      counter at its end the routine returns EXIT_FAILURE, which is 1, a block like any other. */
  function Allocate(bytes: seq<byte>): (r: (byte, seq<byte>))
    requires |bytes| >= SIZE_BLOCK
    ensures |r.1| == |bytes|
  {
    var hole := HoleFrom(bytes, 1);
    if hole != 0 then (hole, bytes[hole * SIZE_BLOCK + DATA_PACKET := END_MARK])
    else if bytes[SIZE_BLOCK - 1] != END_MARK then
      (bytes[SIZE_BLOCK - 1], bytes[SIZE_BLOCK - 1 := bytes[SIZE_BLOCK - 1] + 1])
    else (1, bytes)
  }

  /** A block has been taken: the first hole, marked as the end of a chain; or, with no hole, the next fresh
      block, counted; or, with none of these either, block 1. */
  ghost predicate Taken(before: seq<byte>, block: byte, after: seq<byte>) {
    && |before| >= 256
    && (forall b :: 1 <= b < 255 && Hole(before, b) && (forall c :: 1 <= c < b ==> !Hole(before, c)) ==>
          block == b && after == before[256 * b + 255 := 255])
    && ((forall b :: 1 <= b < 255 ==> !Hole(before, b)) ==>
          if before[255] != 255 then block == before[255] && after == before[255 := before[255] + 1]
          else block == 1 && after == before)
  }

  lemma {:induction false} NoHoleBefore(bytes: seq<byte>, b: nat, c: nat)
    requires 1 <= b <= c < COUNT_BLOCKS && (HoleFrom(bytes, b) == 0 || c < HoleFrom(bytes, b))
    ensures !Hole(bytes, c)
    decreases COUNT_BLOCKS - b
  {
    if b < c && b * SIZE_BLOCK + DATA_PACKET < |bytes| { NoHoleBefore(bytes, b + 1, c); }
  }

  /** checkBlockAvaible takes the first hole, else the next fresh block, else block 1. */
  lemma AllocateTakes(bytes: seq<byte>)
    requires |bytes| >= SIZE_BLOCK
    ensures Taken(bytes, Allocate(bytes).0, Allocate(bytes).1)
  {
    var hole := HoleFrom(bytes, 1);
    forall c: nat | 1 <= c < if hole == 0 then COUNT_BLOCKS else hole
      ensures !Hole(bytes, c)
    {
      NoHoleBefore(bytes, 1, c);
    }
    if hole != 0 { assert Hole(bytes, hole); }
  }

  predicate SlotMatches(bytes: seq<byte>, s: nat, name: CString)
    requires |bytes| >= SIZE_BLOCK && s < SLOTS
  {
    SameString(name, bytes[s * SLOT_SIZE..s * SLOT_SIZE + NAME_SIZE])
  }

  /** The first of the slots from `s` on that holds the name, among those that can be found. */
  function FindFrom(bytes: seq<byte>, s: nat, name: CString): (r: nat)
    requires |bytes| >= SIZE_BLOCK && s <= FOUND_SLOTS
    ensures s <= r <= FOUND_SLOTS
    ensures forall q :: s <= q < r ==> !SlotMatches(bytes, q, name)
    ensures r < FOUND_SLOTS ==> SlotMatches(bytes, r, name)
    decreases FOUND_SLOTS - s
  {
    if s == FOUND_SLOTS || SlotMatches(bytes, s, name) then s else FindFrom(bytes, s + 1, name)
  }

  /** Slot `q` has a first block. */
  predicate Occupied(bytes: seq<byte>, q: nat)
    requires |bytes| >= SIZE_BLOCK && q < SLOTS
  {
    bytes[q * SLOT_SIZE + NAME_SIZE] != 0
  }

  /** The first slot from `s` on with no first block. */
  function FreeFrom(bytes: seq<byte>, s: nat): (r: nat)
    requires |bytes| >= SIZE_BLOCK && s <= SLOTS
    ensures s <= r <= SLOTS
    ensures forall q :: s <= q < r ==> Occupied(bytes, q)
    ensures r < SLOTS ==> !Occupied(bytes, r)
    decreases SLOTS - s
  {
    if s == SLOTS || !Occupied(bytes, s) then s else FreeFrom(bytes, s + 1)
  }

  /** A slot filled in: the first block, then the name. */
  function FillSlot(bytes: seq<byte>, s: nat, e: Entry): (r: seq<byte>)
    requires (s + 1) * SLOT_SIZE <= |bytes|
    ensures |r| == |bytes|
  {
    Overwrite(Overwrite(bytes, s * SLOT_SIZE + NAME_SIZE, [e.start]), s * SLOT_SIZE, NameField(e.name))
  }

  /** The name of every slot ends within it. */
  ghost predicate NamesEnd(bytes: seq<byte>)
    requires |bytes| >= SIZE_BLOCK
  {
    forall s :: 0 <= s < SLOTS ==> 0 in bytes[s * SLOT_SIZE..s * SLOT_SIZE + NAME_SIZE]
  }

  lemma NoEmptyName(name: CString)
    ensures SameString(name, seq(NAME_SIZE, _ => 0)) <==> name == []
  {
    if name != [] && |name| < NAME_SIZE {
      assert name[0] != 0 && (seq<byte>(NAME_SIZE, _ => 0))[..|name|][0] == 0;
    }
  }

  lemma ReadSlot(bytes: seq<byte>, s: nat, buffer: seq<byte>, name: CString)
    requires |bytes| >= SIZE_BLOCK && s < SLOTS && |buffer| == NAME_SIZE
    ensures SameString(name, ReadName(bytes, s * SLOT_SIZE, buffer)) == SlotMatches(bytes, s, name)
  {
    assert ReadName(bytes, s * SLOT_SIZE, buffer) == bytes[s * SLOT_SIZE..s * SLOT_SIZE + NAME_SIZE];
  }

  /** The search has read `s` slots, the last of them into the buffer, and not found the name before. */
  ghost predicate Searched(bytes: seq<byte>, s: nat, name: CString, buffer: seq<byte>)
    requires |bytes| >= SIZE_BLOCK && |buffer| == NAME_SIZE
  {
    && (forall q :: 0 <= q < s - 1 && q < SLOTS ==> !SlotMatches(bytes, q, name))
    && (if s == 0 then SameString(name, buffer) == (name == [])
        else (s <= SLOTS ==> SameString(name, buffer) == SlotMatches(bytes, s - 1, name)))
  }

  lemma SearchStarts(bytes: seq<byte>, name: CString, buffer: seq<byte>)
    requires |bytes| >= SIZE_BLOCK && |buffer| == NAME_SIZE && SameString(name, buffer) == (name == [])
    ensures Searched(bytes, 0, name, buffer)
  {
  }

  lemma SearchStep(bytes: seq<byte>, s: nat, name: CString, buffer: seq<byte>)
    requires |bytes| >= SIZE_BLOCK && |buffer| == NAME_SIZE && s <= SLOTS
    requires Searched(bytes, s, name, buffer) && !SameString(name, buffer)
    ensures Searched(bytes, s + 1, name, ReadName(bytes, s * SLOT_SIZE, buffer))
  {
    if s < SLOTS { ReadSlot(bytes, s, buffer, name); }
    hide SameString, SlotMatches, ReadName;
  }

  lemma SearchEnds(bytes: seq<byte>, s: nat, name: CString, buffer: seq<byte>)
    requires |bytes| >= SIZE_BLOCK && |buffer| == NAME_SIZE && s <= SLOTS + 1
    requires Searched(bytes, s, name, buffer) && (SameString(name, buffer) || s == SLOTS + 1)
    ensures s == 0 ==> name == []
    ensures s > 0 ==> FindFrom(bytes, 0, name) == if s <= FOUND_SLOTS then s - 1 else FOUND_SLOTS
  {
    hide SameString, SlotMatches, FindFrom;
  }

  class LinkedDisk {
    var bytes: seq<byte>

    /** A disk with no files on it. */
    constructor Mount()
      ensures Holds(bytes, [])
    {
      var directory: seq<byte> := seq(SIZE_BLOCK, _ => 0);
      directory := directory[SIZE_BLOCK - 1 := 1];
      assert directory == DiskImage([]);
      bytes := directory;
    }

    method CheckBlockAvailable() returns (block: byte)
      requires |bytes| >= SIZE_BLOCK
      modifies this
      ensures (block, bytes) == Allocate(old(bytes))
    {
      var i := 1;
      while i < COUNT_BLOCKS
        invariant 1 <= i <= COUNT_BLOCKS && bytes == old(bytes) && HoleFrom(bytes, 1) == HoleFrom(bytes, i)
      {
        if i * SIZE_BLOCK + DATA_PACKET >= |bytes| {
          break;
        }
        if bytes[i * SIZE_BLOCK + DATA_PACKET] == 0 {
          bytes := bytes[i * SIZE_BLOCK + DATA_PACKET := END_MARK];
          return i;
        }
        i := i + 1;
      }
      var next := bytes[SIZE_BLOCK - 1];
      if next != END_MARK {
        bytes := bytes[SIZE_BLOCK - 1 := next + 1];
        return next;
      }
      return 1;
    }

    /** Looks a name up. The entry in the last of the fifteen slots is never found; the empty name always
        is, without a look at the disk, and the byte returned for it is the first one. */
    method ExistFile(name: CString) returns (found: bool, firstBlock: byte)
      requires |bytes| >= SIZE_BLOCK && (|name| < NAME_SIZE || NamesEnd(bytes))
      ensures name == [] ==> found && firstBlock == bytes[0]
      ensures name != [] ==> var s := FindFrom(bytes, 0, name);
                             (found <==> s < FOUND_SLOTS) && (found ==> firstBlock == bytes[s * SLOT_SIZE + NAME_SIZE])
    {
      hide SameString, Searched, ReadName, FindFrom;
      firstBlock := 0;
      var buffer: seq<byte> := seq(NAME_SIZE, _ => 0);
      NoEmptyName(name);
      var i := 0;
      ghost var s := 0;
      SearchStarts(bytes, name, buffer);
      while !SameString(name, buffer) && i < SIZE_BLOCK
        invariant i == s * SLOT_SIZE && s <= SLOTS + 1 && |buffer| == NAME_SIZE
        invariant Searched(bytes, s, name, buffer) && (name == [] ==> s == 0 && SameString(name, buffer))
        decreases SLOTS + 1 - s
      {
        SearchStep(bytes, s, name, buffer);
        buffer := ReadName(bytes, i, buffer);
        i := i + SLOT_SIZE;
        s := s + 1;
      }
      SearchEnds(bytes, s, name, buffer);
      if i >= DATA_PACKET {
        return false, 0;
      }
      firstBlock := bytes[if i == 0 then 0 else i - 1];
      return true, firstBlock;
    }

    /** Fills in the first slot with no first block, or, with none left, the bytes where a sixteenth slot
        would be. */
    method AllocateInDirectory(name: CString) returns (firstBlock: byte)
      requires |bytes| >= SIZE_BLOCK && |name| < NAME_SIZE
      requires FreeFrom(bytes, 0) == SLOTS ==> |bytes| >= 2 * SIZE_BLOCK
      modifies this
      ensures firstBlock == Allocate(old(bytes)).0
      ensures bytes == FillSlot(Allocate(old(bytes)).1, FreeFrom(old(bytes), 0), Entry(name, firstBlock))
    {
      hide Overwrite, Allocate, NameField, FreeFrom;
      firstBlock := 1;
      var i := 0;
      ghost var s := 0;
      while i < SIZE_BLOCK && firstBlock != 0
        invariant i == s * SLOT_SIZE && s <= FreeFrom(bytes, 0) + 1
        invariant firstBlock != 0 ==> s <= FreeFrom(bytes, 0) || s == SLOTS + 1
        invariant firstBlock == 0 ==> s == FreeFrom(bytes, 0) + 1
        decreases SLOTS + 1 - s
      {
        assert s < FreeFrom(bytes, 0) ==> Occupied(bytes, s);
        firstBlock := bytes[i + NAME_SIZE];
        i := i + SLOT_SIZE;
        s := s + 1;
      }
      var position := i - 1;
      firstBlock := CheckBlockAvailable();
      bytes := Overwrite(bytes, position, [firstBlock]);
      bytes := Overwrite(bytes, position - NAME_SIZE, NameField(name));
    }

    /** One block of a file: its part of the content, then the mark of the end or a newly allocated
        next block. */
    method WriteBlock(block: byte, content: CString, j: nat) returns (done: bool, next: byte)
      requires |bytes| >= SIZE_BLOCK && 1 <= block && block * SIZE_BLOCK <= |bytes|
      modifies this
      ensures done <==> |content| < (j + 1) * DATA_PACKET
      ensures (next, bytes) == BlockWritten(old(bytes), block, content, j)
    {
      bytes := Overwrite(bytes, block * SIZE_BLOCK, Chunk(content, j));
      if |content| < (j + 1) * DATA_PACKET {
        bytes := Overwrite(bytes, block * SIZE_BLOCK + DATA_PACKET, [END_MARK]);
        return true, END_MARK;
      }
      next := CheckBlockAvailable();
      bytes := Overwrite(bytes, block * SIZE_BLOCK + DATA_PACKET, [next]);
      done := false;
    }

    /** Writes a file's content block by block, from its first block on. */
    method AllocateContent(firstBlock: byte, content: CString, ghost slot: nat, ghost entries: seq<Entry>,
                           ghost files: seq<File>)
      returns (success: bool)
      requires |entries| <= SLOTS && slot < SLOTS && Counter(files) <= COUNT_BLOCKS
      requires if Counter(files) < COUNT_BLOCKS then
                 firstBlock == Counter(files) && Growing(bytes, entries, files, content, 0)
               else firstBlock == 1 && Overrun(bytes, slot)
      modifies this
      ensures success <==> BlockCount(content) <= COUNT_BLOCKS
      ensures Counter(files) + BlockCount(content) <= COUNT_BLOCKS ==> Grown(bytes, entries, files, content)
      ensures Counter(files) + BlockCount(content) > COUNT_BLOCKS ==> Overrun(bytes, slot)
    {
      hide Growing, Overrun, Grown, BlockWritten;
      ghost var start := Counter(files);
      if start < COUNT_BLOCKS {
        GrowingStep(bytes, entries, files, content, 0, slot);
      } else {
        OverrunStep(bytes, content, 0, slot);
      }
      var done, nextBlock := WriteBlock(firstBlock, content, 0);
      if done {
        return true;
      }
      var index := 1;
      while index < COUNT_BLOCKS
        invariant 1 <= index <= COUNT_BLOCKS && |bytes| >= SIZE_BLOCK && index * DATA_PACKET <= |content|
        invariant if start + index < COUNT_BLOCKS then
                    nextBlock == start + index && Growing(bytes, entries, files, content, index)
                  else nextBlock == 1 && Overrun(bytes, slot)
      {
        if start + index < COUNT_BLOCKS {
          GrowingStep(bytes, entries, files, content, index, slot);
        } else {
          OverrunStep(bytes, content, index, slot);
        }
        done, nextBlock := WriteBlock(nextBlock, content, index);
        if done {
          return true;
        }
        index := index + 1;
      }
      return false;
    }

    /** Stores a file. It fails, changing nothing, when the name is empty, too long or already found; on
        a disk with room the new file joins the others, which stay as they are; on a disk without room
        for all of it, block 1 is handed out a second time, and yet the write may report success. */
    method WriteFile(name: CString, content: CString, ghost files: seq<File>) returns (success: bool)
      requires Holds(bytes, files) && |name| != NAME_SIZE && (Accepted(files, name) ==> |files| < SLOTS)
      modifies this
      ensures success <==> Accepted(files, name) && BlockCount(content) <= COUNT_BLOCKS
      ensures !Accepted(files, name) ==> bytes == old(bytes)
      ensures Accepted(files, name) && Counter(files) + BlockCount(content) <= COUNT_BLOCKS ==>
                Holds(bytes, files + [File(name, content)])
      ensures Accepted(files, name) && Counter(files) + BlockCount(content) > COUNT_BLOCKS ==> Overrun(bytes, |files|)
    {
      if |name| > NAME_SIZE {
        return false;
      }
      hide DiskImage, Overrun, Findable, Counter, FindFrom, BlockCount, Fits, Holds;
      Named(bytes, files, name);
      var found, _ := ExistFile(name);
      if found {
        return false;
      }
      success := Store(name, content, files);
    }

    /** The part of writeFile that is sure of the name: makes the entry and writes the content. */
    method Store(name: CString, content: CString, ghost files: seq<File>) returns (success: bool)
      requires |files| < SLOTS && Holds(bytes, files) && 1 <= |name| < NAME_SIZE && !Findable(files, name)
      modifies this
      ensures success <==> BlockCount(content) <= COUNT_BLOCKS
      ensures Counter(files) + BlockCount(content) <= COUNT_BLOCKS ==> Holds(bytes, files + [File(name, content)])
      ensures Counter(files) + BlockCount(content) > COUNT_BLOCKS ==> Overrun(bytes, |files|)
    {
      hide DiskImage, Growing, Grown, Overrun, Entries, FillSlot, Findable, Counter, Allocate, FreeFrom, Occupied;
      FirstFreeSlot(files);
      EntryMade(files, name, content);
      ghost var e := Entry(name, Allocate(bytes).0);
      var firstBlock := AllocateInDirectory(name);
      success := AllocateContent(firstBlock, content, |files|, Entries(files) + [e], files);
      if Counter(files) + BlockCount(content) <= COUNT_BLOCKS {
        StoredFile(bytes, files, File(name, content));
      }
    }

    /** A block by its number, or the first block of a file for number 0. */
    method ExtractBlock(name: CString, number: byte) returns (block: seq<byte>)
      requires |bytes| >= SIZE_BLOCK && name != [] && (|name| < NAME_SIZE || NamesEnd(bytes))
      requires var b := FirstOr(bytes, name, number); b != 0 && (b + 1) * SIZE_BLOCK <= |bytes|
      ensures var b := FirstOr(bytes, name, number);
              block == bytes[b * SIZE_BLOCK..(b + 1) * SIZE_BLOCK]
    {
      hide FindFrom;
      var at: nat := number;
      if number == 0 {
        var _, first := ExistFile(name);
        at := first;
      }
      block := bytes[at * SIZE_BLOCK..(at + 1) * SIZE_BLOCK];
    }

    /** The answer to GET: the text of the file's blocks, one after the other, and how many they are. */
    method Get(name: CString, ghost files: seq<File>) returns (found: bool, text: seq<byte>, blocks: nat)
      requires Holds(bytes, files) && name != []
      ensures found <==> Findable(files, name)
      ensures found ==> exists f :: 0 <= f < |files| && Delivered(files[f], name, text, blocks)
    {
      hide DiskImage, Findable, FindFrom, Chunk, Text, Counter, FirstOr;
      text, blocks := [], 0;
      Named(bytes, files, name);
      FindNamed(files, name);
      var first;
      found, first := ExistFile(name);
      if !found {
        return;
      }
      ghost var f := FindFrom(bytes, 0, name);
      ghost var content, start := files[f].content, Counter(files[..f]);
      CounterOfPrefixUpTo(files, f);
      var next: byte := 0;
      while next != END_MARK
        invariant blocks <= BlockCount(content) && start + BlockCount(content) <= COUNT_BLOCKS
        invariant text == Parts(content, blocks)
        invariant next == if blocks == 0 then 0 else if blocks == BlockCount(content) then END_MARK else start + blocks
        decreases BlockCount(content) - blocks
      {
        PartOf(files, name, f, blocks);
        var block := ExtractBlock(name, next);
        next := block[DATA_PACKET];
        text := text + Text(block[..DATA_PACKET]);
        ChunkText(content, blocks);
        blocks := blocks + 1;
      }
      assert Delivered(files[f], name, text, blocks);
    }
  }

  // ---- Runs of writes ----

  /** The files after one write to a disk that has room for it. */
  ghost function AfterWrite(files: seq<File>, file: File): seq<File> {
    if Accepted(files, file.name) then files + [file] else files
  }

  /** The disk has a slot and blocks for the file, if its name is accepted at all. */
  ghost predicate HasRoom(files: seq<File>, file: File) {
    && |file.name| != NAME_SIZE
    && (Accepted(files, file.name) ==> |files| < SLOTS && Counter(files) + BlockCount(file.content) <= COUNT_BLOCKS)
  }

  ghost function AfterWrites(files: seq<File>, todo: seq<File>): seq<File> {
    if todo == [] then files else AfterWrite(AfterWrites(files, todo[..|todo| - 1]), todo[|todo| - 1])
  }

  /** There is room for each of these writes when its turn comes. */
  ghost predicate HasRoomFor(files: seq<File>, todo: seq<File>) {
    todo == []
    || (HasRoomFor(files, todo[..|todo| - 1]) && HasRoom(AfterWrites(files, todo[..|todo| - 1]), todo[|todo| - 1]))
  }

  lemma {:induction false} RoomAt(files: seq<File>, todo: seq<File>, i: nat)
    requires HasRoomFor(files, todo) && i < |todo|
    ensures HasRoom(AfterWrites(files, todo[..i]), todo[i])
    decreases |todo|
  {
    hide HasRoom, AfterWrites;
    var before := todo[..|todo| - 1];
    if i < |todo| - 1 {
      RoomAt(files, before, i);
      assert before[..i] == todo[..i];
    }
  }

  lemma NextWrite(files: seq<File>, todo: seq<File>, i: nat)
    requires i < |todo|
    ensures AfterWrites(files, todo[..i + 1]) == AfterWrite(AfterWrites(files, todo[..i]), todo[i])
  {
    hide AfterWrite;
    assert todo[..i + 1][..i] == todo[..i];
  }

  lemma {:induction false} FitsBefore(todo: seq<File>)
    requires Fits(todo) && todo != []
    ensures Fits(todo[..|todo| - 1])
  {
    var before := todo[..|todo| - 1];
    hide BlockCount;
    assert forall i :: 0 <= i < |before| ==> before[i] == todo[i];
  }

  lemma {:induction false} LastFits(todo: seq<File>)
    requires Fits(todo) && todo != []
    ensures Accepted(todo[..|todo| - 1], todo[|todo| - 1].name) && HasRoom(todo[..|todo| - 1], todo[|todo| - 1])
  {
    hide BlockCount;
    var before, last := todo[..|todo| - 1], todo[|todo| - 1];
    assert forall i :: 0 <= i < |before| ==> before[i] == todo[i] && todo[i].name != last.name;
    assert !Findable(before, last.name);
  }

  /** Files that fit on a disk are all accepted, one after the other. */
  lemma {:induction false} FittingFiles(todo: seq<File>)
    requires Fits(todo)
    ensures HasRoomFor([], todo) && AfterWrites([], todo) == todo
    decreases |todo|
  {
    hide Fits, HasRoom, Accepted;
    if todo != [] {
      FitsBefore(todo);
      LastFits(todo);
      FittingFiles(todo[..|todo| - 1]);
      assert todo == todo[..|todo| - 1] + [todo[|todo| - 1]];
    }
  }

  /** Any sequence of writes from a disk with some files on it, while there is room: the disk then holds
      those and the accepted ones, in the order of the writes. */
  method WriteAll(disk: LinkedDisk, todo: seq<File>, ghost files: seq<File>)
    requires Holds(disk.bytes, files) && HasRoomFor(files, todo)
    modifies disk
    ensures Holds(disk.bytes, AfterWrites(files, todo))
  {
    hide Holds, HasRoomFor, AfterWrites, Accepted, BlockCount;
    assert AfterWrites(files, todo[..0]) == files by { NoWrites(files, todo[..0]); }
    for i := 0 to |todo|
      invariant Holds(disk.bytes, AfterWrites(files, todo[..i]))
    {
      RoomAt(files, todo, i);
      NextWrite(files, todo, i);
      var file := todo[i];
      var _ := disk.WriteFile(file.name, file.content, AfterWrites(files, todo[..i]));
      assert File(file.name, file.content) == file;
    }
    assert todo[..|todo|] == todo;
  }

  lemma NoWrites(files: seq<File>, todo: seq<File>)
    requires todo == []
    ensures AfterWrites(files, todo) == files
  {
  }

  /** From a fresh disk: any files that fit can be stored, and GET then delivers each of them, whole,
      except the fifteenth. */
  method StoreAndGet(todo: seq<File>, name: CString)
    returns (disk: LinkedDisk, found: bool, text: seq<byte>, blocks: nat)
    requires Fits(todo) && name != []
    ensures fresh(disk) && Holds(disk.bytes, todo)
    ensures found <==> exists f :: 0 <= f < |todo| && f < FOUND_SLOTS && todo[f].name == name
    ensures found ==> exists f :: 0 <= f < |todo| && Delivered(todo[f], name, text, blocks)
  {
    hide Holds, AfterWrites, HasRoomFor, Delivered;
    disk := new LinkedDisk.Mount();
    FittingFiles(todo);
    WriteAll(disk, todo, []);
    found, text, blocks := disk.Get(name, todo);
  }

  /** How long a file an empty disk has room for. */
  lemma EmptyDiskRoom(content: seq<byte>)
    ensures Counter([]) + BlockCount(content) <= COUNT_BLOCKS <==> |content| < (COUNT_BLOCKS - 1) * DATA_PACKET
  {
  }

  /** The shortest file that is too long for an empty disk: the write reports success, and block 1
      follows the last block of its chain, which is no chain any more. */
  method OverrunDisk(name: CString, content: CString) returns (disk: LinkedDisk, success: bool)
    requires 1 <= |name| < NAME_SIZE && |content| == (COUNT_BLOCKS - 1) * DATA_PACKET
    ensures fresh(disk) && success && Overrun(disk.bytes, 0)
    ensures forall files: seq<File> :: Fits(files) ==> !Holds(disk.bytes, files)
  {
    hide Overrun, Holds, Fits;
    disk := new LinkedDisk.Mount();
    EmptyDiskRoom(content);
    success := disk.WriteFile(name, content, []);
    forall files: seq<File> | Fits(files)
      ensures !Holds(disk.bytes, files)
    {
      OverrunIsNoImage(disk.bytes, 0, files);
    }
  }

  /** With all fifteen slots taken, the entry of a sixteenth file lands on the counter and on the first
      bytes of block 1, and the disk holds no list of files any more. */
  lemma {:induction false} SixteenthEntry(files: seq<File>, name: CString)
    requires Fits(files) && |files| == SLOTS && 1 <= |name| < NAME_SIZE
    ensures FreeFrom(DiskImage(files), 0) == SLOTS && |DiskImage(files)| >= 2 * SIZE_BLOCK
    ensures var (first, bytes) := Allocate(DiskImage(files));
            var bytes' := FillSlot(bytes, SLOTS, Entry(name, first));
            && bytes'[SIZE_BLOCK - 1] == name[0] && bytes'[SIZE_BLOCK + NAME_SIZE - 1] == first
            && (forall p :: 0 <= p < |bytes| && !(SIZE_BLOCK - 1 <= p < SIZE_BLOCK + NAME_SIZE) ==>
                  bytes'[p] == bytes[p])
            && forall others: seq<File> :: !Holds(bytes', others)
  {
    hide Blocks, DirectoryBlock, Entries, Allocate, Counter, Occupied, NameField;
    forall s | 0 <= s < SLOTS
      ensures Occupied(DiskImage(files), s)
    {
      SlotTaken(files, s);
    }
    CounterOfAll(files);
    AllocateOnImage(files);
    var (first, bytes) := Allocate(DiskImage(files));
    var bytes' := FillSlot(bytes, SLOTS, Entry(name, first));
    NameInField(name);
    forall others: seq<File>
      ensures !Holds(bytes', others)
    {
      if Holds(bytes', others) { NoFirstPart(bytes', others); }
    }
  }

  lemma CounterOfAll(files: seq<File>)
    ensures Counter(files) >= 1 + |files|
  {
  }

  lemma NameInField(name: CString)
    requires 1 <= |name| < NAME_SIZE
    ensures NameField(name)[0] == name[0] && NameField(name)[NAME_SIZE - 1] == 0
  {
  }

  lemma {:induction false} SlotTaken(files: seq<File>, s: nat)
    requires Fits(files) && s < |files|
    ensures Occupied(DiskImage(files), s)
  {
    hide Blocks, DirectoryBlock, Entries;
    SlotBytes(Entries(files), Counter(files), Blocks(files), s);
    EntryOf(files, s);
  }

  /** A block with a byte behind a zero is no part of a text. */
  lemma {:induction false} NoFirstPart(bytes: seq<byte>, files: seq<File>)
    requires Holds(bytes, files) && |bytes| >= 2 * SIZE_BLOCK
    ensures bytes[SIZE_BLOCK + NAME_SIZE - 2] != 0 || bytes[SIZE_BLOCK + NAME_SIZE - 1] == 0
  {
    hide DiskImage;
    assert files != [] by { EmptyImage(); }
    ChainOf(files, 0, 0);
    assert files[..0] == [];
    var content := files[0].content;
    var part := bytes[SIZE_BLOCK..SIZE_BLOCK + DATA_PACKET];
    assert part == Chunk(content, 0);
    assert part[NAME_SIZE - 2] == bytes[SIZE_BLOCK + NAME_SIZE - 2];
    assert part[NAME_SIZE - 1] == bytes[SIZE_BLOCK + NAME_SIZE - 1];
    assert NAME_SIZE - 2 < |content| ==> content[NAME_SIZE - 2] != 0;
  }

  lemma EmptyImage()
    ensures |DiskImage([])| == SIZE_BLOCK
  {
  }

  /** The content as far as the first `j` parts reach. */
  ghost function Parts(content: seq<byte>, j: nat): seq<byte> {
    content[..if j * DATA_PACKET < |content| then j * DATA_PACKET else |content|]
  }

  /** The whole content of the file, from as many blocks as it fills and one more. */
  ghost predicate Delivered(file: File, name: CString, text: seq<byte>, blocks: nat) {
    file.name == name && text == file.content && blocks == |file.content| / DATA_PACKET + 1
  }

  /** The block extractBlock reads. */
  function FirstOr(bytes: seq<byte>, name: CString, number: byte): nat
    requires |bytes| >= SIZE_BLOCK
  {
    if number != 0 then number
    else
      var s := FindFrom(bytes, 0, name);
      if s < FOUND_SLOTS then bytes[s * SLOT_SIZE + NAME_SIZE] else 0
  }

  /** The bytes after one block has been written, and the next block. */
  function BlockWritten(bytes: seq<byte>, block: byte, content: seq<byte>, j: nat): (r: (byte, seq<byte>))
    requires |bytes| >= SIZE_BLOCK && 1 <= block && block * SIZE_BLOCK <= |bytes|
    ensures |r.1| >= |bytes|
  {
    var bytes1 := Overwrite(bytes, block * SIZE_BLOCK, Chunk(content, j));
    if |content| < (j + 1) * DATA_PACKET then
      (END_MARK, Overwrite(bytes1, block * SIZE_BLOCK + DATA_PACKET, [END_MARK]))
    else
      var taken := Allocate(bytes1);
      (taken.0, Overwrite(taken.1, block * SIZE_BLOCK + DATA_PACKET, [taken.0]))
  }

  /** The disk with the first `j` blocks of a new file behind the files it held; the next block is
      allocated. */
  ghost predicate Growing(bytes: seq<byte>, entries: seq<Entry>, files: seq<File>, content: seq<byte>, j: nat)
    requires Counter(files) <= COUNT_BLOCKS
  {
    && j < BlockCount(content) && Counter(files) + j < COUNT_BLOCKS
    && bytes == DirectoryBlock(entries, Counter(files) + j + 1)
                + (Blocks(files) + FileBlocks(Counter(files), content, j))
    && NoHoles(bytes)
  }

  /** The disk with all the blocks of the new file. */
  ghost predicate Grown(bytes: seq<byte>, entries: seq<Entry>, files: seq<File>, content: seq<byte>)
    requires Counter(files) <= COUNT_BLOCKS
  {
    && Counter(files) + BlockCount(content) <= COUNT_BLOCKS
    && bytes == DirectoryBlock(entries, Counter(files) + BlockCount(content))
                + (Blocks(files) + FileBlocks(Counter(files), content, BlockCount(content)))
    && NoHoles(bytes)
  }

  /** The disk is full and block 1, which starts the file of slot 0, has been handed out again: as the
      first block of slot `slot`, or as the successor of the last block. */
  ghost predicate Overrun(bytes: seq<byte>, slot: nat)
    requires slot < SLOTS
  {
    && |bytes| == SIZE_BLOCK * COUNT_BLOCKS && bytes[SIZE_BLOCK - 1] == END_MARK && NoHoles(bytes)
    && ((slot > 0 && bytes[slot * SLOT_SIZE + NAME_SIZE] == 1) || NextByte(bytes, COUNT_BLOCKS - 1) == 1)
  }

  lemma CounterStep(entries: seq<Entry>, counter: byte, rest: seq<byte>)
    requires counter < END_MARK
    ensures (DirectoryBlock(entries, counter) + rest)[SIZE_BLOCK - 1 := counter + 1]
         == DirectoryBlock(entries, counter + 1) + rest
  {
    assert DirectoryBlock(entries, counter)[SIZE_BLOCK - 1 := counter + 1] == DirectoryBlock(entries, counter + 1);
  }

  /** Appending part of a block completes none, so it leaves no hole. */
  lemma PartLeavesNoHole(bytes: seq<byte>, b: nat, data: seq<byte>)
    requires NoHoles(bytes) && |bytes| == b * SIZE_BLOCK && |data| == DATA_PACKET
    ensures NoHoles(bytes + data)
  {
    forall c | 1 <= c < COUNT_BLOCKS && c * SIZE_BLOCK + DATA_PACKET < |bytes + data|
      ensures NextByte(bytes + data, c) != 0
    {
      assert c < b;
      assert NextByte(bytes, c) != 0;
    }
  }

  lemma NextLeavesNoHole(bytes: seq<byte>, b: nat, next: byte)
    requires NoHoles(bytes) && |bytes| == b * SIZE_BLOCK + DATA_PACKET && next != 0
    ensures NoHoles(bytes + [next])
  {
    forall c | 1 <= c < COUNT_BLOCKS && c * SIZE_BLOCK + DATA_PACKET < |bytes + [next]|
      ensures NextByte(bytes + [next], c) != 0
    {
      if c < b { assert NextByte(bytes, c) != 0; }
    }
  }

  lemma CounterLeavesNoHole(bytes: seq<byte>, counter: byte)
    requires NoHoles(bytes) && |bytes| >= SIZE_BLOCK
    ensures NoHoles(bytes[SIZE_BLOCK - 1 := counter])
  {
    forall c | 1 <= c < COUNT_BLOCKS && c * SIZE_BLOCK + DATA_PACKET < |bytes|
      ensures NextByte(bytes[SIZE_BLOCK - 1 := counter], c) != 0
    {
      assert NextByte(bytes, c) != 0;
    }
  }

  lemma Appended(bytes: seq<byte>, data: seq<byte>)
    ensures Overwrite(bytes, |bytes|, data) == bytes + data
  {
  }

  /** What one block does to the bytes of a disk without holes that ends where the block begins. */
  lemma BlockAppended(bytes: seq<byte>, b: byte, content: seq<byte>, j: nat)
    requires 1 <= b < COUNT_BLOCKS && |bytes| == b * SIZE_BLOCK && NoHoles(bytes) && bytes[SIZE_BLOCK - 1] == b + 1
    ensures var (next, bytes') := BlockWritten(bytes, b, content, j);
            && NoHoles(bytes')
            && (if |content| < (j + 1) * DATA_PACKET then bytes' == bytes + (Chunk(content, j) + [END_MARK])
                else if b + 1 == COUNT_BLOCKS then next == 1 && bytes' == bytes + (Chunk(content, j) + [1])
                else next == b + 1 && bytes' == bytes[SIZE_BLOCK - 1 := b + 2] + (Chunk(content, j) + [next]))
  {
    hide Overwrite, Chunk, NoHoles, HoleFrom;
    var chunk := Chunk(content, j);
    var bytes1 := bytes + chunk;
    Appended(bytes, chunk);
    PartLeavesNoHole(bytes, b, chunk);
    assert bytes1[SIZE_BLOCK - 1] == b + 1;
    assert HoleFrom(bytes1, 1) == 0;
    if |content| < (j + 1) * DATA_PACKET {
      Appended(bytes1, [END_MARK]);
      NextLeavesNoHole(bytes1, b, END_MARK);
      assert bytes1 + [END_MARK] == bytes + (chunk + [END_MARK]);
    } else if b + 1 == COUNT_BLOCKS {
      Appended(bytes1, [1]);
      NextLeavesNoHole(bytes1, b, 1);
      assert bytes1 + [1] == bytes + (chunk + [1]);
    } else {
      var bytes2 := bytes1[SIZE_BLOCK - 1 := b + 2];
      CounterLeavesNoHole(bytes1, b + 2);
      Appended(bytes2, [b + 1]);
      NextLeavesNoHole(bytes2, b, b + 1);
      assert bytes2 + [b + 1] == bytes[SIZE_BLOCK - 1 := b + 2] + (chunk + [b + 1]);
    }
  }

  /** One more block of the new file. */
  lemma GrowingStep(bytes: seq<byte>, entries: seq<Entry>, files: seq<File>, content: seq<byte>, j: nat, slot: nat)
    requires |entries| <= SLOTS && Counter(files) <= COUNT_BLOCKS && slot < SLOTS
    requires Growing(bytes, entries, files, content, j)
    ensures |bytes| == (Counter(files) + j) * SIZE_BLOCK && Counter(files) + j < COUNT_BLOCKS
    ensures var (next, bytes') := BlockWritten(bytes, Counter(files) + j, content, j);
            if |content| < (j + 1) * DATA_PACKET then Grown(bytes', entries, files, content)
            else if Counter(files) + j + 1 == COUNT_BLOCKS then next == 1 && Overrun(bytes', slot)
            else next == Counter(files) + j + 1 && Growing(bytes', entries, files, content, j + 1)
  {
    hide Chunk, Blocks, BlockWritten, NoHoles;
    var start := Counter(files);
    var b, chunk := start + j, Chunk(content, j);
    var directory, rest := DirectoryBlock(entries, b + 1), Blocks(files) + FileBlocks(start, content, j);
    assert directory[SIZE_BLOCK - 1] == b + 1;
    BlockAppended(bytes, b, content, j);
    var bytes' := BlockWritten(bytes, b, content, j).1;
    if |content| < (j + 1) * DATA_PACKET {
      assert FileBlocks(start, content, j + 1) == FileBlocks(start, content, j) + (chunk + [END_MARK]);
      Regroup(directory, Blocks(files), FileBlocks(start, content, j), chunk + [END_MARK]);
    } else if b + 1 < COUNT_BLOCKS {
      CounterStep(entries, b + 1, rest);
      assert FileBlocks(start, content, j + 1) == FileBlocks(start, content, j) + (chunk + [b + 1]);
      Regroup(DirectoryBlock(entries, b + 2), Blocks(files), FileBlocks(start, content, j), chunk + [b + 1]);
    } else {
      assert NextByte(bytes', COUNT_BLOCKS - 1) == 1;
    }
  }

  lemma Regroup(a: seq<byte>, b: seq<byte>, c: seq<byte>, d: seq<byte>)
    ensures a + (b + c) + d == a + (b + (c + d))
  {
  }

  /** Block 1 is written over: the data, which is behind the directory and before its next byte ... */
  lemma OverrunData(bytes: seq<byte>, data: seq<byte>, slot: nat)
    requires slot < SLOTS && Overrun(bytes, slot) && |data| == DATA_PACKET
    ensures Overrun(Overwrite(bytes, SIZE_BLOCK, data), slot)
  {
    var bytes' := Overwrite(bytes, SIZE_BLOCK, data);
    forall b | 1 <= b < COUNT_BLOCKS
      ensures NextByte(bytes', b) == NextByte(bytes, b) != 0
    {
    }
    assert bytes'[slot * SLOT_SIZE + NAME_SIZE] == bytes[slot * SLOT_SIZE + NAME_SIZE];
  }

  /** ... and then the next byte itself. */
  lemma OverrunNext(bytes: seq<byte>, next: byte, slot: nat)
    requires slot < SLOTS && Overrun(bytes, slot) && next != 0
    ensures Overrun(Overwrite(bytes, SIZE_BLOCK + DATA_PACKET, [next]), slot)
  {
    var bytes' := Overwrite(bytes, SIZE_BLOCK + DATA_PACKET, [next]);
    forall b | 1 <= b < COUNT_BLOCKS
      ensures NextByte(bytes', b) == if b == 1 then next else NextByte(bytes, b)
    {
    }
    assert bytes'[slot * SLOT_SIZE + NAME_SIZE] == bytes[slot * SLOT_SIZE + NAME_SIZE];
  }

  /** On a disk without holes the counter decides. */
  lemma AllocateByCounter(bytes: seq<byte>)
    requires |bytes| >= SIZE_BLOCK && NoHoles(bytes)
    ensures Allocate(bytes) == var counter := bytes[SIZE_BLOCK - 1];
            if counter != END_MARK then (counter, bytes[SIZE_BLOCK - 1 := counter + 1]) else (1, bytes)
  {
    hide NoHoles;
    assert HoleFrom(bytes, 1) == 0;
  }

  lemma OverrunFull(bytes: seq<byte>, slot: nat)
    requires slot < SLOTS && Overrun(bytes, slot)
    ensures |bytes| == SIZE_BLOCK * COUNT_BLOCKS && Allocate(bytes) == (1, bytes)
  {
    hide NoHoles;
    AllocateByCounter(bytes);
  }

  lemma OverrunStep(bytes: seq<byte>, content: seq<byte>, j: nat, slot: nat)
    requires slot < SLOTS && Overrun(bytes, slot)
    ensures |bytes| >= SIZE_BLOCK
    ensures var (next, bytes') := BlockWritten(bytes, 1, content, j);
            Overrun(bytes', slot) && next == if |content| < (j + 1) * DATA_PACKET then END_MARK else 1
  {
    hide Chunk, Overrun, Overwrite, Allocate;
    OverrunFull(bytes, slot);
    var bytes1 := Overwrite(bytes, SIZE_BLOCK, Chunk(content, j));
    OverrunData(bytes, Chunk(content, j), slot);
    OverrunFull(bytes1, slot);
    OverrunNext(bytes1, if |content| < (j + 1) * DATA_PACKET then END_MARK else 1, slot);
  }

  // ---- What an image says ----

  /** Block `j` of file `f` holds part `j` of its content, and names the next. */
  lemma {:induction false} WrittenBlock(start: nat, content: seq<byte>, n: nat, j: nat)
    requires start + n <= COUNT_BLOCKS && j < n
    ensures FileBlocks(start, content, n)[j * SIZE_BLOCK..j * SIZE_BLOCK + DATA_PACKET] == Chunk(content, j)
    ensures FileBlocks(start, content, n)[j * SIZE_BLOCK + DATA_PACKET] == NextOf(start, content, j)
  {
    hide Chunk;
    var before, last := FileBlocks(start, content, n - 1), Chunk(content, n - 1) + [NextOf(start, content, n - 1)];
    assert FileBlocks(start, content, n) == before + last;
    if j < n - 1 {
      WrittenBlock(start, content, n - 1, j);
      assert (before + last)[j * SIZE_BLOCK..j * SIZE_BLOCK + DATA_PACKET]
          == before[j * SIZE_BLOCK..j * SIZE_BLOCK + DATA_PACKET];
    } else {
      assert (before + last)[j * SIZE_BLOCK..j * SIZE_BLOCK + DATA_PACKET] == Chunk(content, j);
    }
  }

  /** The `i`-th block of a string of blocks, the `i`-th of a part of it. */
  lemma BlockInside(before: seq<byte>, own: seq<byte>, i: nat)
    requires |before| % SIZE_BLOCK == 0 && (i + 1) * SIZE_BLOCK <= |before + own|
    ensures var at, from := i * SIZE_BLOCK, |before|;
            if at < from then
              at + SIZE_BLOCK <= from
              && (before + own)[at..at + DATA_PACKET] == before[at..at + DATA_PACKET]
              && (before + own)[at + DATA_PACKET] == before[at + DATA_PACKET]
            else
              (before + own)[at..at + DATA_PACKET] == own[at - from..at - from + DATA_PACKET]
              && (before + own)[at + DATA_PACKET] == own[at - from + DATA_PACKET]
  {
  }

  /** Block `start + j` of a string of blocks, counted from 1, is part `j` of a file. */
  ghost predicate BlockIs(blocks: seq<byte>, start: nat, content: seq<byte>, j: nat) {
    var at := (start + j - 1) * SIZE_BLOCK;
    && 1 <= start && start + j < COUNT_BLOCKS && at + SIZE_BLOCK <= |blocks|
    && blocks[at..at + DATA_PACKET] == Chunk(content, j)
    && blocks[at + DATA_PACKET] == NextOf(start, content, j)
  }

  lemma {:induction false} BlockOf(files: seq<File>, f: nat, j: nat)
    requires Counter(files) <= COUNT_BLOCKS && f < |files| && j < BlockCount(files[f].content)
    ensures BlockIs(Blocks(files), Counter(files[..f]), files[f].content, j)
  {
    hide Blocks, BlockIs;
    var n := |files| - 1;
    var before := files[..n];
    if f < n {
      assert before[f] == files[f] && before[..f] == files[..f];
      BlockOf(before, f, j);
      EarlierBlock(files, Counter(files[..f]), files[f].content, j);
    } else {
      LastBlock(files, j);
    }
  }

  lemma {:induction false} EarlierBlock(files: seq<File>, start: nat, content: seq<byte>, j: nat)
    requires files != [] && Counter(files) <= COUNT_BLOCKS && BlockIs(Blocks(files[..|files| - 1]), start, content, j)
    ensures BlockIs(Blocks(files), start, content, j)
  {
    hide FileBlocks, Chunk;
    var before, last := files[..|files| - 1], files[|files| - 1].content;
    BlockInside(Blocks(before), FileBlocks(Counter(before), last, BlockCount(last)), start + j - 1);
  }

  lemma {:induction false} LastBlock(files: seq<File>, j: nat)
    requires files != [] && Counter(files) <= COUNT_BLOCKS && j < BlockCount(files[|files| - 1].content)
    ensures BlockIs(Blocks(files), Counter(files[..|files| - 1]), files[|files| - 1].content, j)
  {
    hide FileBlocks, Chunk;
    var before, content := files[..|files| - 1], files[|files| - 1].content;
    var start := Counter(before);
    WrittenBlock(start, content, BlockCount(content), j);
    BlockInside(Blocks(before), FileBlocks(start, content, BlockCount(content)), start + j - 1);
  }

  /** Every block from 1 up to the counter belongs to exactly one part of one file. */
  lemma {:induction false} OwnerOf(files: seq<File>, b: nat) returns (f: nat, j: nat)
    requires 1 <= b < Counter(files)
    ensures f < |files| && j < BlockCount(files[f].content) && Counter(files[..f]) + j == b
  {
    var n := |files| - 1;
    var before := files[..n];
    if b < Counter(before) {
      f, j := OwnerOf(before, b);
      assert before[..f] == files[..f];
    } else {
      f, j := n, b - Counter(before);
    }
  }

  /** The chain of a file: its blocks follow one another up to the mark of the end, within the
      blocks in use. */
  lemma {:induction false} ChainOf(files: seq<File>, f: nat, j: nat)
    requires Counter(files) <= COUNT_BLOCKS && f < |files| && j < BlockCount(files[f].content)
    ensures var start := Counter(files[..f]); var b := start + j; var image := DiskImage(files);
            && 1 <= start && b < Counter(files)
            && image[b * SIZE_BLOCK..b * SIZE_BLOCK + DATA_PACKET] == Chunk(files[f].content, j)
            && NextByte(image, b) == if j + 1 == BlockCount(files[f].content) then END_MARK else b + 1
  {
    hide Chunk, Blocks, BlockIs;
    BlockOf(files, f, j);
    WithinFile(files, f, j);
    BlockOnDisk(DirectoryBlock(Entries(files), Counter(files)), Blocks(files),
                Counter(files[..f]), files[f].content, j);
  }

  lemma {:induction false} WithinFile(files: seq<File>, f: nat, j: nat)
    requires Counter(files) <= COUNT_BLOCKS && f < |files| && j < BlockCount(files[f].content)
    ensures Counter(files[..f]) + j < Counter(files)
  {
    BlockOf(files, f, j);
    hide Chunk, Blocks;
  }

  lemma BlockOnDisk(directory: seq<byte>, blocks: seq<byte>, start: nat, content: seq<byte>, j: nat)
    requires |directory| == SIZE_BLOCK && BlockIs(blocks, start, content, j)
    ensures var b, bytes := start + j, directory + blocks;
            && 1 <= start && b < COUNT_BLOCKS && (b + 1) * SIZE_BLOCK <= |bytes|
            && bytes[b * SIZE_BLOCK..b * SIZE_BLOCK + DATA_PACKET] == Chunk(content, j)
            && NextByte(bytes, b) == NextOf(start, content, j)
  {
    hide Chunk;
    BlockInside(directory, blocks, start + j);
  }

  /** The chains of two files share no block. */
  lemma {:induction false} ChainsApart(files: seq<File>, f: nat, g: nat)
    requires f < g < |files|
    ensures Counter(files[..f]) + BlockCount(files[f].content) <= Counter(files[..g])
  {
    var before := files[..g];
    assert before[f] == files[f] && before[..f] == files[..f];
    if f + 1 == g {
      assert before[..|before| - 1] == files[..f];
    } else {
      ChainsApart(files, f, g - 1);
      assert before[..|before| - 1] == files[..g - 1];
    }
  }

  lemma {:induction false} ImageHasNoHoles(files: seq<File>)
    requires Counter(files) <= COUNT_BLOCKS
    ensures NoHoles(DiskImage(files))
    ensures forall b :: 1 <= b < Counter(files) ==> NextByte(DiskImage(files), b) > 1
  {
    hide DiskImage;
    forall b | 1 <= b < Counter(files)
      ensures NextByte(DiskImage(files), b) > 1
    {
      var f, j := OwnerOf(files, b);
      ChainOf(files, f, j);
    }
  }

  lemma {:induction false} EntryOf(files: seq<File>, f: nat)
    requires Counter(files) <= COUNT_BLOCKS && f < |files|
    ensures Counter(files[..f]) < COUNT_BLOCKS && Entries(files)[f] == Entry(files[f].name, Counter(files[..f]))
  {
    var before := files[..|files| - 1];
    if f < |files| - 1 {
      assert before[f] == files[f] && before[..f] == files[..f];
      EntryOf(before, f);
    } else {
      assert files[..f] == before;
    }
  }

  /** A slot of the directory. */
  lemma {:induction false} SlotBytes(entries: seq<Entry>, counter: byte, rest: seq<byte>, s: nat)
    requires s < SLOTS
    ensures var bytes := DirectoryBlock(entries, counter) + rest;
            && bytes[s * SLOT_SIZE..s * SLOT_SIZE + NAME_SIZE] == SlotField(entries, s)[..NAME_SIZE]
            && bytes[s * SLOT_SIZE + NAME_SIZE] == SlotField(entries, s)[NAME_SIZE]
  {
    hide SlotField;
    var bytes := DirectoryBlock(entries, counter) + rest;
    forall k | 0 <= k < SLOT_SIZE
      ensures bytes[s * SLOT_SIZE + k] == SlotField(entries, s)[k]
    {
      assert (s * SLOT_SIZE + k) / SLOT_SIZE == s && (s * SLOT_SIZE + k) % SLOT_SIZE == k;
    }
    assert bytes[s * SLOT_SIZE + NAME_SIZE] == SlotField(entries, s)[NAME_SIZE];
  }

  // ---- Writing ----

  /** A slot holds a name exactly when the file of that slot bears it. */
  lemma {:induction false} SlotNames(files: seq<File>, s: nat, name: CString)
    requires Fits(files) && s < SLOTS && name != []
    ensures 0 in DiskImage(files)[s * SLOT_SIZE..s * SLOT_SIZE + NAME_SIZE]
    ensures SlotMatches(DiskImage(files), s, name) <==> s < |files| && files[s].name == name
  {
    SlotBytes(Entries(files), Counter(files), Blocks(files), s);
    hide DirectoryBlock, Blocks, Entries;
    if s < |files| {
      EntryOf(files, s);
      FieldMatches(files[s].name, name);
      assert SlotField(Entries(files), s)[..NAME_SIZE] == NameField(files[s].name);
      assert NameField(files[s].name)[NAME_SIZE - 1] == 0;
    } else {
      NoEmptyName(name);
      var zeros: seq<byte> := seq(NAME_SIZE, _ => 0);
      assert SlotField(Entries(files), s)[..NAME_SIZE] == zeros && zeros[0] == 0;
    }
  }

  lemma FieldMatches(name: CString, other: CString)
    requires |name| < NAME_SIZE
    ensures SameString(other, NameField(name)) <==> name == other
  {
    if SameString(other, NameField(name)) {
      var field := NameField(name);
      assert forall k :: 0 <= k < |other| ==> other[k] == field[k];
      assert field[|other|] == 0 && |other| >= |name|;
      assert forall k :: 0 <= k < |other| ==> field[k] != 0;
      assert field[|name|] == 0;
    } else if |other| < NAME_SIZE {
      assert NameField(name)[..|name|] == name;
    }
  }

  /** A name is found exactly when one of the first fourteen files bears it, at its slot. */
  lemma {:induction false} FindNamed(files: seq<File>, name: CString)
    requires Fits(files) && name != []
    ensures var s := FindFrom(DiskImage(files), 0, name);
            && (s < FOUND_SLOTS <==> Findable(files, name))
            && (s < FOUND_SLOTS ==> s < |files| && files[s].name == name)
  {
    hide SlotMatches, DiskImage, FindFrom;
    forall s | 0 <= s < SLOTS
      ensures SlotMatches(DiskImage(files), s, name) <==> s < |files| && files[s].name == name
    {
      SlotNames(files, s, name);
    }
  }

  lemma {:induction false} Named(bytes: seq<byte>, files: seq<File>, name: CString)
    requires Holds(bytes, files)
    ensures |bytes| >= SIZE_BLOCK && NamesEnd(bytes) && |files| <= SLOTS
    ensures name != [] ==> (FindFrom(bytes, 0, name) < FOUND_SLOTS <==> Findable(files, name))
  {
    hide FindFrom, Findable, Counter, DiskImage;
    if name != [] { FindNamed(files, name); }
    forall s | 0 <= s < SLOTS
      ensures 0 in bytes[s * SLOT_SIZE..s * SLOT_SIZE + NAME_SIZE]
    {
      SlotNames(files, s, [1]);
    }
  }

  /** The entry of a stored file is found exactly when it is not in the fifteenth slot. */
  lemma {:induction false} FoundUnlessLast(files: seq<File>, i: nat)
    requires Fits(files) && i < |files|
    ensures Findable(files, files[i].name) <==> i < FOUND_SLOTS
  {
    if Findable(files, files[i].name) {
      var k :| 0 <= k < |files| && k < FOUND_SLOTS && files[k].name == files[i].name;
      assert k == i;
    }
  }

  /** The first free slot comes after those of the files. */
  lemma {:induction false} FirstFreeSlot(files: seq<File>)
    requires Fits(files) && |files| < SLOTS
    ensures FreeFrom(DiskImage(files), 0) == |files|
  {
    hide Blocks, DirectoryBlock, Entries, FreeFrom;
    forall s | 0 <= s < SLOTS
      ensures Occupied(DiskImage(files), s) <==> s < |files|
    {
      SlotBytes(Entries(files), Counter(files), Blocks(files), s);
      if s < |files| { EntryOf(files, s); }
    }
    assert !Occupied(DiskImage(files), |files|);
  }

  lemma FilledSlot(entries: seq<Entry>, counter: byte, rest: seq<byte>, e: Entry)
    requires |entries| < SLOTS
    ensures FillSlot(DirectoryBlock(entries, counter) + rest, |entries|, e)
         == DirectoryBlock(entries + [e], counter) + rest
  {
    hide NameField;
    var before, after := DirectoryBlock(entries, counter) + rest, DirectoryBlock(entries + [e], counter) + rest;
    var at := |entries| * SLOT_SIZE;
    forall p | 0 <= p < |before|
      ensures FillSlot(before, |entries|, e)[p] == after[p]
    {
      SlotPosition(p, |entries|);
    }
  }

  lemma SlotPosition(p: nat, s: nat)
    ensures s * SLOT_SIZE <= p < s * SLOT_SIZE + SLOT_SIZE <==> p / SLOT_SIZE == s
    ensures p / SLOT_SIZE == s ==> p % SLOT_SIZE == p - s * SLOT_SIZE
  {
  }

  /** Block 0 alone does not matter to the blocks behind it. */
  lemma SameHoles(directory: seq<byte>, directory': seq<byte>, rest: seq<byte>)
    requires |directory| == |directory'| == SIZE_BLOCK && NoHoles(directory + rest)
    ensures NoHoles(directory' + rest)
  {
    forall b | 1 <= b < COUNT_BLOCKS && b * SIZE_BLOCK + DATA_PACKET < |directory' + rest|
      ensures NextByte(directory' + rest, b) != 0
    {
      assert NextByte(directory + rest, b) != 0;
      assert NextByte(directory + rest, b) == rest[b * SIZE_BLOCK + DATA_PACKET - SIZE_BLOCK];
    }
  }

  /** After the entry of a new file has been made: either its first block is fresh and the content can
      follow, or the disk was full and the entry shares block 1 with the first file. */
  lemma {:induction false} EntryMade(files: seq<File>, name: CString, content: seq<byte>)
    requires Fits(files) && |files| < SLOTS
    ensures var (first, bytes) := Allocate(DiskImage(files));
            var bytes' := FillSlot(bytes, |files|, Entry(name, first));
            if Counter(files) < COUNT_BLOCKS then
              first == Counter(files) && Growing(bytes', Entries(files) + [Entry(name, first)], files, content, 0)
            else first == 1 && Overrun(bytes', |files|)
  {
    hide FillSlot, Growing, Overrun;
    AllocateOnImage(files);
    if Counter(files) < COUNT_BLOCKS { FreshEntry(files, name, content); } else { SharedEntry(files, name); }
  }

  lemma {:induction false} AllocateOnImage(files: seq<File>)
    requires Fits(files)
    ensures Allocate(DiskImage(files)) ==
            if Counter(files) < COUNT_BLOCKS then
              (Counter(files), DiskImage(files)[SIZE_BLOCK - 1 := Counter(files) + 1])
            else (1, DiskImage(files))
  {
    hide DiskImage, Allocate, NoHoles, Counter;
    ImageHasNoHoles(files);
    ImageCounter(files);
    AllocateByCounter(DiskImage(files));
  }

  lemma {:induction false} ImageCounter(files: seq<File>)
    requires Counter(files) <= COUNT_BLOCKS
    ensures |DiskImage(files)| >= SIZE_BLOCK && DiskImage(files)[SIZE_BLOCK - 1] == Counter(files)
  {
    hide Blocks, Entries, SlotField;
  }

  lemma {:induction false} FreshEntry(files: seq<File>, name: CString, content: seq<byte>)
    requires Fits(files) && |files| < SLOTS && Counter(files) < COUNT_BLOCKS
    ensures var e, image := Entry(name, Counter(files)), DiskImage(files);
            Growing(FillSlot(image[SIZE_BLOCK - 1 := Counter(files) + 1], |files|, e), Entries(files) + [e],
                    files, content, 0)
  {
    var start, rest, e := Counter(files), Blocks(files), Entry(name, Counter(files));
    ImageHasNoHoles(files);
    hide Blocks, Entries, NoHoles, FillSlot, DirectoryBlock;
    CounterStep(Entries(files), start, rest);
    FilledSlot(Entries(files), start + 1, rest, e);
    SameHoles(DirectoryBlock(Entries(files), start), DirectoryBlock(Entries(files) + [e], start + 1), rest);
    assert rest + FileBlocks(start, content, 0) == rest;
  }

  lemma {:induction false} SharedEntry(files: seq<File>, name: CString)
    requires Fits(files) && |files| < SLOTS && Counter(files) == COUNT_BLOCKS
    ensures Overrun(FillSlot(DiskImage(files), |files|, Entry(name, 1)), |files|)
  {
    var image, e := DiskImage(files), Entry(name, 1);
    var after := DirectoryBlock(Entries(files) + [e], COUNT_BLOCKS) + Blocks(files);
    ImageHasNoHoles(files);
    FilledSlot(Entries(files), COUNT_BLOCKS, Blocks(files), e);
    SameHoles(DirectoryBlock(Entries(files), COUNT_BLOCKS), DirectoryBlock(Entries(files) + [e], COUNT_BLOCKS),
              Blocks(files));
    SlotBytes(Entries(files) + [e], COUNT_BLOCKS, Blocks(files), |files|);
    assert files != [];
    hide Blocks, Entries, NoHoles, FillSlot;
    assert after[SIZE_BLOCK - 1] == COUNT_BLOCKS;
  }

  /** The finished file completes the image. */
  lemma {:induction false} GrownImage(bytes: seq<byte>, files: seq<File>, file: File)
    requires Fits(files) && Counter(files) < COUNT_BLOCKS
    requires Grown(bytes, Entries(files) + [Entry(file.name, Counter(files))], files, file.content)
    ensures Counter(files + [file]) == Counter(files) + BlockCount(file.content) <= COUNT_BLOCKS
    ensures bytes == DiskImage(files + [file])
  {
    hide FileBlocks, DirectoryBlock, NoHoles;
    assert (files + [file])[..|files|] == files;
  }

  /** A disk on which block 1 has been handed out twice is not one on which every file has blocks of
      its own: the failure of a full disk is never harmless. */
  lemma {:induction false} OverrunIsNoImage(bytes: seq<byte>, slot: nat, files: seq<File>)
    requires slot < SLOTS && Overrun(bytes, slot) && Fits(files)
    ensures !Holds(bytes, files)
  {
    ImageHasNoHoles(files);
    SlotBytes(Entries(files), Counter(files), Blocks(files), slot);
    hide Blocks, DirectoryBlock, NoHoles, Entries;
    if slot < |files| {
      EntryOf(files, slot);
      CounterOfPrefixAtLeast(files, slot);
    }
  }

  lemma {:induction false} CounterOfPrefixAtLeast(files: seq<File>, i: nat)
    requires i <= |files|
    ensures Counter(files[..i]) >= 1 + i
  {
  }

  /** A finished file that was not there before joins the others. */
  lemma {:induction false} StoredFile(bytes: seq<byte>, files: seq<File>, file: File)
    requires Fits(files) && |files| < SLOTS && 1 <= |file.name| < NAME_SIZE && !Findable(files, file.name)
    requires Counter(files) < COUNT_BLOCKS
    requires Grown(bytes, Entries(files) + [Entry(file.name, Counter(files))], files, file.content)
    ensures Holds(bytes, files + [file])
  {
    hide DiskImage, Entries, Grown;
    GrownImage(bytes, files, file);
  }

  // ---- Reading ----

  /** Part `j` of the file that starts at a block is the block read for it, with what comes behind it. */
  ghost predicate PartAt(image: seq<byte>, name: CString, start: nat, content: seq<byte>, j: nat) {
    var b := start + j;
    && start + BlockCount(content) <= COUNT_BLOCKS && b < COUNT_BLOCKS && 1 <= b && (b + 1) * SIZE_BLOCK <= |image|
    && FirstOr(image, name, if j == 0 then 0 else b) == b
    && image[b * SIZE_BLOCK..(b + 1) * SIZE_BLOCK][..DATA_PACKET] == Chunk(content, j)
    && image[b * SIZE_BLOCK..(b + 1) * SIZE_BLOCK][DATA_PACKET]
       == (if j + 1 == BlockCount(content) then END_MARK else b + 1)
  }

  /** Where part `j` of a file is read from. */
  lemma {:induction false} PartOf(files: seq<File>, name: CString, f: nat, j: nat)
    requires Fits(files) && f < |files| && j < BlockCount(files[f].content)
    requires f == FindFrom(DiskImage(files), 0, name) < FOUND_SLOTS
    ensures PartAt(DiskImage(files), name, Counter(files[..f]), files[f].content, j)
  {
    hide Chunk, DiskImage, FindFrom, FirstOr;
    ChainOf(files, f, j);
    CounterOfPrefixUpTo(files, f);
    FirstBlockOf(files, name, f);
    BlockSlice(DiskImage(files), Counter(files[..f]) + j);
    hide Counter;
  }

  lemma BlockSlice(bytes: seq<byte>, b: nat)
    requires (b + 1) * SIZE_BLOCK <= |bytes|
    ensures var block := bytes[b * SIZE_BLOCK..(b + 1) * SIZE_BLOCK];
            block[..DATA_PACKET] == bytes[b * SIZE_BLOCK..b * SIZE_BLOCK + DATA_PACKET]
            && block[DATA_PACKET] == NextByte(bytes, b)
  {
  }

  lemma {:induction false} FirstBlockOf(files: seq<File>, name: CString, f: nat)
    requires Fits(files) && f < |files| && f == FindFrom(DiskImage(files), 0, name) < FOUND_SLOTS
    ensures FirstOr(DiskImage(files), name, 0) == Counter(files[..f])
    ensures forall b: byte :: b != 0 ==> FirstOr(DiskImage(files), name, b) == b
  {
    hide Blocks, DirectoryBlock, Entries, FindFrom, Counter;
    EntryOf(files, f);
    SlotBytes(Entries(files), Counter(files), Blocks(files), f);
  }

  lemma {:induction false} CounterOfPrefixUpTo(files: seq<File>, f: nat)
    requires f < |files|
    ensures Counter(files[..f]) + BlockCount(files[f].content) <= Counter(files)
  {
    if f < |files| - 1 {
      ChainsApart(files, f, |files| - 1);
    }
  }

  lemma {:induction false} TextIs(data: seq<byte>, n: nat)
    requires n <= |data| && 0 !in data[..n] && (n < |data| ==> data[n] == 0)
    ensures Text(data) == data[..n]
  {
    if n > 0 {
      assert data[0] in data[..n];
      assert data[1..][..n - 1] == data[..n][1..];
      TextIs(data[1..], n - 1);
    }
  }

  /** The text of a part is the next stretch of the content. */
  lemma ChunkText(content: CString, j: nat)
    requires j < BlockCount(content)
    ensures Parts(content, j) + Text(Chunk(content, j)) == Parts(content, j + 1)
  {
    var at := j * DATA_PACKET;
    var n := if at + DATA_PACKET < |content| then DATA_PACKET else |content| - at;
    assert Chunk(content, j)[..n] == content[at..at + n];
    assert forall x :: x in content[at..at + n] ==> x in content;
    TextIs(Chunk(content, j), n);
    assert content[..at] + content[at..at + n] == content[..at + n];
  }

  // ---- The layout, byte by byte ----

  /** Files take blocks from 1 on: as many as they fill, and one more. */
  lemma CounterIs(files: seq<File>, file: File)
    ensures Counter([]) == 1 && Counter(files + [file]) == Counter(files) + |file.content| / 255 + 1
  {
    assert (files + [file])[..|files|] == files;
  }

  /** Block 0: each file's name, padded with zeros to sixteen bytes, and its first block; zeros in the slots
      that are free; and the next fresh block in the last byte. */
  lemma {:induction false} SlotLayout(files: seq<File>, f: nat, k: nat)
    requires Counter(files) <= COUNT_BLOCKS && |files| <= SLOTS && f < SLOTS && k < SLOT_SIZE
    ensures DiskImage(files)[255] == Counter(files)
    ensures DiskImage(files)[17 * f + k] ==
            if f >= |files| then 0
            else if k == 16 then Counter(files[..f])
            else if k < |files[f].name| then files[f].name[k] else 0
  {
    hide Blocks, Counter, Entries;
    if f < |files| { EntryOf(files, f); }
    assert (17 * f + k) / SLOT_SIZE == f && (17 * f + k) % SLOT_SIZE == k;
  }

  /** The other blocks: 255 bytes of a file, padded with zeros, and the number of the next block, 255 in the
      last one. */
  lemma {:induction false} BlockLayout(files: seq<File>, f: nat, j: nat, k: nat)
    requires Counter(files) <= COUNT_BLOCKS && f < |files| && j <= |files[f].content| / 255 && k < 255
    ensures var (content, start) := (files[f].content, Counter(files[..f]));
            && 256 * (start + j) + 256 <= |DiskImage(files)|
            && DiskImage(files)[256 * (start + j) + k] ==
               (if 255 * j + k < |content| then content[255 * j + k] else 0)
            && DiskImage(files)[256 * (start + j) + 255] == if j == |content| / 255 then 255 else start + j + 1
  {
    hide Counter, DiskImage;
    ChainOf(files, f, j);
    var at := (Counter(files[..f]) + j) * SIZE_BLOCK;
    assert DiskImage(files)[at..at + DATA_PACKET][k] == Chunk(files[f].content, j)[k];
  }
}
