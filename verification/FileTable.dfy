/** The bookkeeping of the file system as values: which sectors each file claims, and when the
    free map, the directory and the headers agree (the state behind filesys/filesys.cc). */
module FileTable {
  import opened Sectors
  import opened Encoding
  import opened FileLayout
  import opened BitMaps
  import opened Directories
  import opened OpenFiles
  import opened FileHeaders

  const FREE_MAP_SECTOR := 0
  const DIRECTORY_SECTOR := 1
  const FREE_MAP_FILE_SIZE := NUM_SECTORS / 8
  const NUM_DIR_ENTRIES := 10
  const DIRECTORY_FILE_SIZE := ENTRY_SIZE * NUM_DIR_ENTRIES

  /** A directory slot together with the header it points at. */
  datatype Slot = Free | Taken(key: CString, sector: int, hdr: Header)

  /** The header lies on the disk, outside the sectors of the data. */
  ghost predicate GoodSlot(s: Slot) {
    s.Taken? ==> 0 <= s.sector < NUM_SECTORS && Usable(s.hdr) && s.sector !in DataSet(s.hdr)
  }

  /** Every sector a file claims: its header's and those of its data. */
  ghost function Extent(s: Slot): set<int>
    requires GoodSlot(s)
  {
    if s.Free? then {} else {s.sector} + DataSet(s.hdr)
  }

  /** The sectors claimed by the first `n` slots. */
  ghost function Extents(slots: seq<Slot>, n: nat): set<int>
    requires n <= |slots| && forall i :: 0 <= i < n ==> GoodSlot(slots[i])
  {
    if n == 0 then {} else Extents(slots, n - 1) + Extent(slots[n - 1])
  }

  /** Slots `i` and `j` share no sector and no name. */
  ghost predicate Apart(a: Slot, b: Slot)
    requires GoodSlot(a) && GoodSlot(b)
  {
    Extent(a) !! Extent(b) && (a.Taken? && b.Taken? ==> a.key != b.key)
  }

  /** The free map marks exactly the system's sectors and those of the files, and all of these are
      pairwise distinct. */
  ghost predicate Consistent(system: set<int>, marked: set<int>, slots: seq<Slot>) {
    && (forall i :: 0 <= i < |slots| ==> GoodSlot(slots[i]) && Extent(slots[i]) !! system)
    && (forall i, j :: 0 <= i < j < |slots| ==> Apart(slots[i], slots[j]))
    && marked == system + Extents(slots, |slots|)
  }

  lemma {:induction false} ExtentsHas(slots: seq<Slot>, n: nat, i: nat)
    requires i < n <= |slots| && forall k :: 0 <= k < n ==> GoodSlot(slots[k])
    ensures Extent(slots[i]) <= Extents(slots, n)
  {
    if i < n - 1 { ExtentsHas(slots, n - 1, i); }
  }

  /** A set apart from every extent is apart from their union. */
  lemma {:induction false} ExtentsApart(slots: seq<Slot>, n: nat, other: set<int>)
    requires n <= |slots| && forall k :: 0 <= k < n ==> GoodSlot(slots[k]) && Extent(slots[k]) !! other
    ensures Extents(slots, n) !! other
  {
    if n > 0 { ExtentsApart(slots, n - 1, other); }
  }

  /** Replacing one slot leaves the others' claims alone. */
  lemma {:induction false} ExtentsStoreBeyond(slots: seq<Slot>, n: nat, i: nat, s: Slot)
    requires n <= i < |slots| && GoodSlot(s) && forall k :: 0 <= k < |slots| ==> GoodSlot(slots[k])
    ensures Extents(slots[i := s], n) == Extents(slots, n)
  {
    hide GoodSlot, Extent;
    if n > 0 { ExtentsStoreBeyond(slots, n - 1, i, s); }
  }

  lemma {:induction false} ExtentsTake(slots: seq<Slot>, n: nat, i: nat, s: Slot)
    requires i < n <= |slots| && GoodSlot(s) && forall k :: 0 <= k < |slots| ==> GoodSlot(slots[k])
    requires slots[i].Free?
    ensures Extents(slots[i := s], n) == Extents(slots, n) + Extent(s)
  {
    hide GoodSlot, Extent;
    NothingInFree();
    if i < n - 1 {
      ExtentsTake(slots, n - 1, i, s);
    } else {
      ExtentsStoreBeyond(slots, n - 1, i, s);
    }
  }

  lemma {:induction false} ExtentsFree(slots: seq<Slot>, n: nat, i: nat)
    requires i < n <= |slots| && forall k :: 0 <= k < |slots| ==> GoodSlot(slots[k])
    requires forall k :: 0 <= k < n && k != i ==> Extent(slots[k]) !! Extent(slots[i])
    ensures Extents(slots[i := Free], n) == Extents(slots, n) - Extent(slots[i])
  {
    hide GoodSlot, Extent;
    NothingInFree();
    if i < n - 1 {
      ExtentsFree(slots, n - 1, i);
      MinusApart(Extents(slots, n - 1), Extent(slots[n - 1]), Extent(slots[i]));
    } else {
      ExtentsStoreBeyond(slots, n - 1, i, Free);
      ExtentsApart(slots, n - 1, Extent(slots[i]));
      MinusApart({}, Extents(slots, n - 1), Extent(slots[i]));
    }
  }

  lemma NothingInFree()
    ensures GoodSlot(Free) && Extent(Free) == {}
  {
  }

  lemma MinusApart<T>(a: set<T>, b: set<T>, c: set<T>)
    requires b !! c
    ensures (a - c) + b == (a + b) - c
    ensures (b + c) - c == b
  {
  }

  lemma TakeSlot(system: set<int>, marked: set<int>, slots: seq<Slot>, i: nat, s: Slot)
    requires Consistent(system, marked, slots) && i < |slots| && slots[i].Free?
    requires s.Taken? && GoodSlot(s) && Extent(s) !! marked
    requires forall j :: 0 <= j < |slots| && slots[j].Taken? ==> slots[j].key != s.key
    ensures Consistent(system, marked + Extent(s), slots[i := s])
  {
    hide GoodSlot, Extent, Extents;
    ExtentsTake(slots, |slots|, i, s);
    var slots' := slots[i := s];
    forall j, k | 0 <= j < k < |slots|
      ensures Apart(slots'[j], slots'[k])
    {
      assert Apart(slots[j], slots[k]);
      ExtentsHas(slots, |slots|, j);
      ExtentsHas(slots, |slots|, k);
    }
  }

  lemma FreeSlot(system: set<int>, marked: set<int>, slots: seq<Slot>, i: nat)
    requires Consistent(system, marked, slots) && i < |slots|
    ensures Consistent(system, marked - Extent(slots[i]), slots[i := Free])
  {
    hide GoodSlot, Extent, Extents;
    NothingInFree();
    forall k | 0 <= k < |slots| && k != i
      ensures Extent(slots[k]) !! Extent(slots[i])
    {
      assert Apart(slots[if k < i then k else i], slots[if k < i then i else k]);
    }
    ExtentsFree(slots, |slots|, i);
    var slots' := slots[i := Free];
    forall j, k | 0 <= j < k < |slots|
      ensures Apart(slots'[j], slots'[k])
    {
      assert Apart(slots[j], slots[k]);
    }
  }

  lemma DataSetSize(h: Header)
    requires Usable(h)
    ensures |DataSet(h)| == DivRoundUp(h.numBytes, SECTOR_SIZE)
  {
    PrefixSize(h.dataSectors, h.numSectors);
  }

  lemma ApartSize<T>(a: set<T>, b: set<T>)
    requires a !! b
    ensures |a + b| == |a| + |b|
  {
  }

  /** Sectors a slot uses up: one for its header and those of its data. */
  ghost function Cost(s: Slot): (n: nat)
    requires GoodSlot(s)
    ensures n <= 31
  {
    if s.Free? then 0 else 1 + DivRoundUp(s.hdr.numBytes, SECTOR_SIZE)
  }

  ghost function TotalCost(slots: seq<Slot>, n: nat): (c: nat)
    requires n <= |slots| && forall i :: 0 <= i < n ==> GoodSlot(slots[i])
    ensures c <= 31 * n
  {
    if n == 0 then 0 else TotalCost(slots, n - 1) + Cost(slots[n - 1])
  }

  lemma ExtentSize(s: Slot)
    requires GoodSlot(s)
    ensures |Extent(s)| == Cost(s)
  {
    if s.Taken? {
      DataSetSize(s.hdr);
      ApartSize({s.sector}, DataSet(s.hdr));
    }
  }

  lemma {:induction false} ExtentsSize(slots: seq<Slot>, n: nat)
    requires n <= |slots| && forall i :: 0 <= i < n ==> GoodSlot(slots[i])
    requires forall i, j :: 0 <= i < j < n ==> Apart(slots[i], slots[j])
    ensures |Extents(slots, n)| == TotalCost(slots, n)
  {
    hide GoodSlot, Extent;
    if n > 0 {
      ExtentsSize(slots, n - 1);
      ExtentSize(slots[n - 1]);
      assert forall i :: 0 <= i < n - 1 ==> Extent(slots[i]) !! Extent(slots[n - 1]) by {
        assert forall i :: 0 <= i < n - 1 ==> Apart(slots[i], slots[n - 1]);
      }
      ExtentsApart(slots, n - 1, Extent(slots[n - 1]));
      ApartSize(Extents(slots, n - 1), Extent(slots[n - 1]));
    }
  }

  /** A slot added to a collection of files. */
  ghost function WithFile(img: Image, files: map<CString, seq<byte>>, s: Slot): map<CString, seq<byte>>
    requires GoodSlot(s)
  {
    if s.Free? then files else files[s.key := Bytes(img, s.hdr)]
  }

  /** The names and contents the first `n` slots stand for. */
  ghost function Files(img: Image, slots: seq<Slot>, n: nat): map<CString, seq<byte>>
    requires n <= |slots| && forall i :: 0 <= i < n ==> GoodSlot(slots[i])
  {
    if n == 0 then map[] else WithFile(img, Files(img, slots, n - 1), slots[n - 1])
  }

  /** Distinct names: each one stands for the bytes of its own slot. */
  ghost predicate DistinctNames(slots: seq<Slot>) {
    forall i, j :: 0 <= i < j < |slots| && slots[i].Taken? && slots[j].Taken? ==> slots[i].key != slots[j].key
  }

  lemma {:induction false} FilesSlot(img: Image, slots: seq<Slot>, n: nat, i: nat)
    requires i < n <= |slots| && (forall k :: 0 <= k < n ==> GoodSlot(slots[k])) && DistinctNames(slots)
    requires slots[i].Taken?
    ensures slots[i].key in Files(img, slots, n) && Files(img, slots, n)[slots[i].key] == Bytes(img, slots[i].hdr)
  {
    if i < n - 1 { FilesSlot(img, slots, n - 1, i); }
  }

  lemma {:induction false} FilesName(img: Image, slots: seq<Slot>, n: nat, key: CString) returns (i: nat)
    requires n <= |slots| && forall k :: 0 <= k < n ==> GoodSlot(slots[k])
    requires key in Files(img, slots, n)
    ensures i < n && slots[i].Taken? && slots[i].key == key
  {
    if slots[n - 1].Taken? && slots[n - 1].key == key {
      i := n - 1;
    } else {
      i := FilesName(img, slots, n - 1, key);
    }
  }

  ghost function TakenCount(slots: seq<Slot>, n: nat): nat
    requires n <= |slots|
  {
    if n == 0 then 0 else TakenCount(slots, n - 1) + (if slots[n - 1].Taken? then 1 else 0)
  }

  /** As many files as taken slots. */
  lemma {:induction false} FilesCount(img: Image, slots: seq<Slot>, n: nat)
    requires n <= |slots| && (forall k :: 0 <= k < n ==> GoodSlot(slots[k])) && DistinctNames(slots)
    ensures |Files(img, slots, n)| == TakenCount(slots, n)
  {
    if n > 0 {
      FilesCount(img, slots, n - 1);
      if slots[n - 1].Taken? && slots[n - 1].key in Files(img, slots, n - 1) {
        var i := FilesName(img, slots, n - 1, slots[n - 1].key);
        assert false;
      }
    }
  }

  /** A slot is free exactly when fewer are taken than there are. */
  lemma {:induction false} TakenCountBound(slots: seq<Slot>, n: nat)
    requires n <= |slots|
    ensures TakenCount(slots, n) <= n
    ensures TakenCount(slots, n) < n <==> exists i :: 0 <= i < n && slots[i].Free?
  {
    if n > 0 { TakenCountBound(slots, n - 1); }
  }

  // ---- The same state as it lies on the disk ----

  ghost function MapHeader(img: Image): Header { DecodeHeader(img[FREE_MAP_SECTOR]) }
  ghost function DirHeader(img: Image): Header { DecodeHeader(img[DIRECTORY_SECTOR]) }

  /** The two system files have usable headers of the right length, in sectors of their own. */
  ghost predicate SystemHeaders(m: Header, d: Header) {
    && Usable(m) && m.numBytes == FREE_MAP_FILE_SIZE
    && Usable(d) && d.numBytes == DIRECTORY_FILE_SIZE
    && FREE_MAP_SECTOR !in DataSet(m) && DIRECTORY_SECTOR !in DataSet(m)
    && FREE_MAP_SECTOR !in DataSet(d) && DIRECTORY_SECTOR !in DataSet(d)
    && DataSet(m) !! DataSet(d)
  }

  ghost predicate SystemFiles(img: Image) {
    SystemHeaders(MapHeader(img), DirHeader(img))
  }

  /** The sectors of the free map and directory files. */
  ghost function SystemSectors(m: Header, d: Header): set<int>
    requires Usable(m) && Usable(d)
  {
    {FREE_MAP_SECTOR, DIRECTORY_SECTOR} + DataSet(m) + DataSet(d)
  }

  ghost function System(img: Image): set<int>
    requires SystemFiles(img)
  {
    SystemSectors(MapHeader(img), DirHeader(img))
  }

  ghost function TableOn(img: Image): (t: Table)
    requires SystemFiles(img)
    ensures |t| == NUM_DIR_ENTRIES
  {
    BytesToTable(Bytes(img, DirHeader(img)))
  }

  ghost function MarkedOn(img: Image): set<int>
    requires SystemFiles(img)
  {
    Marked(BytesToWords(Bytes(img, MapHeader(img))), NUM_SECTORS)
  }

  /** A directory entry with the header fetched from where it points. */
  ghost function SlotOf(img: Image, e: Entry): Slot {
    if !e.inUse then Free
    else Taken(BufferKey(e.name), e.sector,
               DecodeHeader(img[if 0 <= e.sector < NUM_SECTORS then e.sector else 0]))
  }

  ghost function SlotsOf(img: Image, t: Table): (s: seq<Slot>)
    ensures |s| == |t|
  {
    seq(|t|, i requires 0 <= i < |t| => SlotOf(img, t[i]))
  }

  ghost function SlotsOn(img: Image): (s: seq<Slot>)
    requires SystemFiles(img)
    ensures |s| == NUM_DIR_ENTRIES
  {
    SlotsOf(img, TableOn(img))
  }

  /** The invariant of the disk. */
  ghost predicate Sound(img: Image) {
    SystemFiles(img) && Consistent(System(img), MarkedOn(img), SlotsOn(img))
  }

  /** The file store the disk represents: names, cut at nine characters, to byte arrays. */
  ghost function Store(img: Image): map<CString, seq<byte>>
    requires Sound(img)
  {
    Files(img, SlotsOn(img), NUM_DIR_ENTRIES)
  }

  /** What soundness says of the slots alone. */
  lemma SoundSlots(img: Image)
    requires Sound(img)
    ensures forall i :: 0 <= i < NUM_DIR_ENTRIES ==> GoodSlot(SlotsOn(img)[i])
    ensures DistinctNames(SlotsOn(img))
    ensures MarkedOn(img) == System(img) + Extents(SlotsOn(img), NUM_DIR_ENTRIES)
  {
    hide GoodSlot, Extent, SlotsOn, MarkedOn, System;
    var slots := SlotsOn(img);
    forall i, j | 0 <= i < j < |slots| && slots[i].Taken? && slots[j].Taken?
      ensures slots[i].key != slots[j].key
    {
      assert Apart(slots[i], slots[j]);
    }
  }

  /** Slot `i` holds the file called `key`. */
  ghost predicate IsFile(img: Image, i: int, key: CString)
    requires Sound(img)
  {
    && 0 <= i < NUM_DIR_ENTRIES
    && GoodSlot(SlotsOn(img)[i])
    && SlotsOn(img)[i].Taken? && SlotsOn(img)[i].key == key
    && key in Store(img) && Store(img)[key] == Bytes(img, SlotsOn(img)[i].hdr)
  }

  /** Looking a name up in the table finds the slot whose file it names, and nothing else. */
  lemma LookUp(img: Image, key: CString)
    requires Sound(img)
    ensures IndexOf(TableOn(img), key) == -1 <==> key !in Store(img)
    ensures IndexOf(TableOn(img), key) != -1 ==> IsFile(img, IndexOf(TableOn(img), key), key)
  {
    hide BytesToTable, Bytes, DecodeHeader, BufferKey, MarkedOn, System, Usable;
    SoundSlots(img);
    if key in Store(img) {
      var j := FilesName(img, SlotsOn(img), NUM_DIR_ENTRIES, key);
      assert Names(TableOn(img), j, key);
    }
    var i := IndexOf(TableOn(img), key);
    if i != -1 {
      assert Names(TableOn(img), i, key);
      FilesSlot(img, SlotsOn(img), NUM_DIR_ENTRIES, i);
    }
  }

  /** The sectors that belong to the file called `key`. */
  ghost function ExtentAt(img: Image, key: CString): set<int>
    requires Sound(img) && key in Store(img)
  {
    LookUp(img, key);
    Extent(SlotsOn(img)[IndexOf(TableOn(img), key)])
  }

  /** The extent of a file is that of the slot that holds it. */
  lemma ExtentOfSlot(img: Image, i: int, key: CString)
    requires Sound(img) && IsFile(img, i, key)
    ensures ExtentAt(img, key) == Extent(SlotsOn(img)[i])
  {
    LookUp(img, key);
    SoundSlots(img);
    var j := IndexOf(TableOn(img), key);
    hide Extent, DistinctNames, SlotsOn, Store, Sound, TableOn;
    OneSlotPerName(SlotsOn(img), i, j);
  }

  /** Two taken slots hold two names. */
  lemma OneSlotPerName(slots: seq<Slot>, i: nat, j: nat)
    requires DistinctNames(slots) && i < |slots| && j < |slots|
    requires slots[i].Taken? && slots[j].Taken? && slots[i].key == slots[j].key
    ensures i == j
  {
    assert !(i < j) && !(j < i);
  }

  lemma SystemSize(img: Image)
    requires SystemFiles(img)
    ensures |System(img)| == 5
  {
    hide Prefix, DecodeHeader;
    var m, d := MapHeader(img), DirHeader(img);
    DataSetSize(m);
    DataSetSize(d);
    ApartSize({FREE_MAP_SECTOR, DIRECTORY_SECTOR}, DataSet(m));
    ApartSize({FREE_MAP_SECTOR, DIRECTORY_SECTOR} + DataSet(m), DataSet(d));
  }

  /** Space accounting: the marked sectors are five for the system and, for each file, one more than
      its bytes fill. */
  lemma SectorsInUse(img: Image)
    requires Sound(img)
    ensures forall i :: 0 <= i < NUM_DIR_ENTRIES ==> GoodSlot(SlotsOn(img)[i])
    ensures |MarkedOn(img)| == 5 + TotalCost(SlotsOn(img), NUM_DIR_ENTRIES)
  {
    hide GoodSlot, SlotsOn, MarkedOn, System, SystemHeaders, Extents, Extent;
    SoundSlots(img);
    var slots := SlotsOn(img);
    SystemSize(img);
    ExtentsSize(slots, NUM_DIR_ENTRIES);
    ExtentsApart(slots, NUM_DIR_ENTRIES, System(img));
    ApartSize(System(img), Extents(slots, NUM_DIR_ENTRIES));
  }

  /** The directory has an unused entry exactly when the store holds fewer files than it can. */
  lemma RoomInDirectory(img: Image)
    requires Sound(img)
    ensures (exists i :: 0 <= i < NUM_DIR_ENTRIES && !TableOn(img)[i].inUse) <==> |Store(img)| < NUM_DIR_ENTRIES
    ensures |Store(img)| <= NUM_DIR_ENTRIES
  {
    hide BytesToTable, Bytes, DecodeHeader, BufferKey, MarkedOn, System, Usable;
    SoundSlots(img);
    FilesCount(img, SlotsOn(img), NUM_DIR_ENTRIES);
    TakenCountBound(SlotsOn(img), NUM_DIR_ENTRIES);
    assert forall i :: 0 <= i < NUM_DIR_ENTRIES ==> SlotsOn(img)[i].Free? == !TableOn(img)[i].inUse;
  }

  /** The files without the one of a slot. */
  ghost function WithoutFile(files: map<CString, seq<byte>>, s: Slot): map<CString, seq<byte>> {
    if s.Free? then files else files - {s.key}
  }

  /** The contents of a slot's file are the same on both disks. */
  ghost predicate SameContents(img: Image, img': Image, s: Slot)
    requires GoodSlot(s)
  {
    s.Taken? ==> Bytes(img', s.hdr) == Bytes(img, s.hdr)
  }

  /** Files under different names come and go in any order. */
  lemma FilesCommute(img: Image, img': Image, files: map<CString, seq<byte>>, was: Slot, s: Slot, other: Slot)
    requires GoodSlot(s) && GoodSlot(other) && SameContents(img, img', other)
    requires was.Taken? && other.Taken? ==> was.key != other.key
    requires s.Taken? && other.Taken? ==> s.key != other.key
    ensures WithFile(img', WithFile(img', WithoutFile(files, was), s), other)
         == WithFile(img', WithoutFile(WithFile(img, files, other), was), s)
  {
    hide GoodSlot;
  }

  lemma {:induction false} FilesBefore(img: Image, img': Image, slots: seq<Slot>, i: nat, s: Slot, n: nat)
    requires n <= i < |slots| && GoodSlot(s)
    requires forall k :: 0 <= k < |slots| ==> GoodSlot(slots[k])
    requires forall k :: 0 <= k < |slots| && k != i ==> SameContents(img, img', slots[k])
    ensures Files(img', slots[i := s], n) == Files(img, slots, n)
  {
    if n > 0 {
      FilesBefore(img, img', slots, i, s, n - 1);
      hide GoodSlot;
      assert slots[i := s][n - 1] == slots[n - 1] && SameContents(img, img', slots[n - 1]);
    }
  }

  /** Storing one slot changes the files in the old and the new name of that slot alone. */
  lemma {:induction false} FilesAfter(img: Image, img': Image, slots: seq<Slot>, i: nat, s: Slot, n: nat)
    requires i < n <= |slots| && GoodSlot(s)
    requires forall k :: 0 <= k < |slots| ==> GoodSlot(slots[k])
    requires forall k :: 0 <= k < |slots| && k != i ==> SameContents(img, img', slots[k])
    requires DistinctNames(slots) && DistinctNames(slots[i := s])
    ensures Files(img', slots[i := s], n) == WithFile(img', WithoutFile(Files(img, slots, n), slots[i]), s)
  {
    hide GoodSlot;
    var slots' := slots[i := s];
    if i == n - 1 {
      FilesBefore(img, img', slots, i, s, i);
      NewName(img, slots, i);
    } else {
      FilesAfter(img, img', slots, i, s, n - 1);
      assert slots'[i] == s && slots'[n - 1] == slots[n - 1];
      FilesCommute(img, img', Files(img, slots, n - 1), slots[i], s, slots[n - 1]);
    }
  }

  lemma NewName(img: Image, slots: seq<Slot>, i: nat)
    requires i < |slots| && DistinctNames(slots) && forall k :: 0 <= k < |slots| ==> GoodSlot(slots[k])
    ensures WithoutFile(Files(img, slots, i + 1), slots[i]) == Files(img, slots, i)
  {
    if slots[i].Taken? && slots[i].key in Files(img, slots, i) {
      var j := FilesName(img, slots, i, slots[i].key);
      assert false;
    }
  }

  /** When the headers of the system files stay, so does everything they determine. */
  lemma SystemStays(img: Image, img': Image)
    requires SystemFiles(img)
    requires img'[FREE_MAP_SECTOR] == img[FREE_MAP_SECTOR] && img'[DIRECTORY_SECTOR] == img[DIRECTORY_SECTOR]
    ensures SystemFiles(img') && System(img') == System(img)
    ensures MapHeader(img') == MapHeader(img) && DirHeader(img') == DirHeader(img)
  {
  }

  /** Slot `j` and its contents survive a change outside its extent. */
  lemma SlotStays(img: Image, img': Image, e: Entry)
    requires GoodSlot(SlotOf(img, e))
    requires forall x :: 0 <= x < NUM_SECTORS && x in Extent(SlotOf(img, e)) ==> img'[x] == img[x]
    ensures SlotOf(img', e) == SlotOf(img, e)
    ensures e.inUse ==> Bytes(img', SlotOf(img, e).hdr) == Bytes(img, SlotOf(img, e).hdr)
  {
    if e.inUse {
      BytesFrame(img, img', SlotOf(img, e).hdr);
    }
  }

  /** `img'` differs from `img` only in the data of the system files, the extent of slot `i`, and
      sectors that were not marked. */
  ghost predicate TouchesOnly(img: Image, img': Image, i: nat, claimed: set<int>)
    requires Sound(img) && i < NUM_DIR_ENTRIES
  {
    && claimed !! MarkedOn(img)
    && img'[FREE_MAP_SECTOR] == img[FREE_MAP_SECTOR] && img'[DIRECTORY_SECTOR] == img[DIRECTORY_SECTOR]
    && (forall x :: 0 <= x < NUM_SECTORS ==>
          x in System(img) || x in Extent(SlotsOn(img)[i]) || x in claimed || img'[x] == img[x])
  }

  lemma OtherSlotStays(img: Image, img': Image, i: nat, j: nat, claimed: set<int>)
    requires Sound(img) && i < NUM_DIR_ENTRIES && j < NUM_DIR_ENTRIES && i != j
    requires TouchesOnly(img, img', i, claimed)
    ensures SlotOf(img', TableOn(img)[j]) == SlotsOn(img)[j] && GoodSlot(SlotsOn(img)[j])
    ensures SlotsOn(img)[j].Taken? ==> Bytes(img', SlotsOn(img)[j].hdr) == Bytes(img, SlotsOn(img)[j].hdr)
  {
    var slots := SlotsOn(img);
    assert i < j ==> Apart(slots[i], slots[j]);
    assert j < i ==> Apart(slots[j], slots[i]);
    ExtentsHas(slots, NUM_DIR_ENTRIES, j);
    SlotStays(img, img', TableOn(img)[j]);
  }

  /** Storing one directory entry stores one slot. */
  lemma SlotsAfter(img: Image, img': Image, i: nat, e: Entry, claimed: set<int>)
    requires Sound(img) && i < NUM_DIR_ENTRIES && TouchesOnly(img, img', i, claimed)
    requires SystemFiles(img') && TableOn(img') == TableOn(img)[i := e]
    ensures SlotsOn(img') == SlotsOn(img)[i := SlotOf(img', e)]
  {
    hide BytesToTable, Bytes, DecodeHeader, BufferKey, MarkedOn, System, Usable, DataSet;
    var before, after := SlotsOn(img), SlotsOn(img');
    forall j | 0 <= j < NUM_DIR_ENTRIES
      ensures after[j] == before[i := SlotOf(img', e)][j]
    {
      if j != i { OtherSlotStays(img, img', i, j, claimed); }
    }
  }

  /** Storing one slot changes the file store in the old and the new name of that slot alone. */
  lemma StoreAfter(img: Image, img': Image, i: nat, s: Slot, claimed: set<int>)
    requires Sound(img) && Sound(img') && i < NUM_DIR_ENTRIES && TouchesOnly(img, img', i, claimed)
    requires SlotsOn(img') == SlotsOn(img)[i := s] && GoodSlot(s)
    ensures Store(img') == WithFile(img', WithoutFile(Store(img), SlotsOn(img)[i]), s)
  {
    SoundSlots(img);
    SoundSlots(img');
    hide GoodSlot, Sound, SlotsOn, TouchesOnly, Extent, MarkedOn, System, DistinctNames, Files;
    forall j | 0 <= j < NUM_DIR_ENTRIES && j != i
      ensures SameContents(img, img', SlotsOn(img)[j])
    {
      OtherSlotStays(img, img', i, j, claimed);
    }
    FilesAfter(img, img', SlotsOn(img), i, s, NUM_DIR_ENTRIES);
  }

  lemma NameUnused(img: Image, key: CString)
    requires Sound(img) && key !in Store(img)
    ensures forall j :: 0 <= j < NUM_DIR_ENTRIES && SlotsOn(img)[j].Taken? ==> SlotsOn(img)[j].key != key
  {
    hide SlotsOn, GoodSlot, Extent, Bytes, System, MarkedOn;
    SoundSlots(img);
    forall j | 0 <= j < NUM_DIR_ENTRIES && SlotsOn(img)[j].Taken?
      ensures SlotsOn(img)[j].key != key
    {
      FilesSlot(img, SlotsOn(img), NUM_DIR_ENTRIES, j);
    }
  }

  /** A header in a sector of the disk, outside its own data. */
  ghost predicate NewHeader(e: Entry, h: Header) {
    e.inUse && 0 <= e.sector < NUM_SECTORS && Usable(h) && e.sector as int !in DataSet(h)
  }

  ghost function NewSectors(e: Entry, h: Header): set<int>
    requires NewHeader(e, h)
  {
    {e.sector as int} + DataSet(h)
  }

  /** What a creation finds: a free slot, a new name, and unmarked sectors. */
  ghost predicate CanTake(img: Image, i: nat, e: Entry, h: Header)
    requires Sound(img) && NewHeader(e, h)
  {
    && i < NUM_DIR_ENTRIES && SlotsOn(img)[i].Free?
    && BufferKey(e.name) !in Store(img)
    && NewSectors(e, h) !! MarkedOn(img)
  }

  /** What it leaves on the disk: the entry, the header, and its sectors marked. */
  ghost predicate Takes(img: Image, img': Image, i: nat, e: Entry, h: Header)
    requires Sound(img) && i < NUM_DIR_ENTRIES && NewHeader(e, h)
  {
    && TouchesOnly(img, img', i, {e.sector as int})
    && SystemFiles(img') && TableOn(img') == TableOn(img)[i := e]
    && DecodeHeader(img'[e.sector]) == h
    && MarkedOn(img') == MarkedOn(img) + NewSectors(e, h)
  }

  ghost predicate Creates(img: Image, img': Image, i: nat, e: Entry, h: Header)
    requires Sound(img)
  {
    NewHeader(e, h) && CanTake(img, i, e, h) && Takes(img, img', i, e, h)
  }

  lemma CreatedSlots(img: Image, img': Image, i: nat, e: Entry, h: Header)
    requires Sound(img) && Creates(img, img', i, e, h)
    ensures SystemFiles(img') && System(img') == System(img)
    ensures SlotsOn(img') == SlotsOn(img)[i := Taken(BufferKey(e.name), e.sector, h)]
  {
    hide DecodeHeader, BytesToTable, Marked, Bytes, BufferKey, DataSet, Files, MarkedOn, System, Usable, Consistent,
      Store;
    SystemStays(img, img');
    SlotsAfter(img, img', i, e, {e.sector as int});
  }

  /** Creating keeps the disk sound and adds the new file to the store. */
  lemma CreateKeepsSound(img: Image, img': Image, i: nat, e: Entry, h: Header)
    requires Sound(img) && Creates(img, img', i, e, h)
    ensures Sound(img')
    ensures Store(img') == Store(img)[BufferKey(e.name) := Bytes(img', h)]
    ensures SlotsOn(img') == SlotsOn(img)[i := Taken(BufferKey(e.name), e.sector, h)]
  {
    hide DecodeHeader, BytesToTable, Marked, Bytes, BufferKey, DataSet, Files, MarkedOn, System, TableOn, SlotsOn,
      TouchesOnly, SystemFiles;
    var slots, s := SlotsOn(img), Taken(BufferKey(e.name), e.sector, h);
    CreatedSlots(img, img', i, e, h);
    SoundSlots(img);
    NameUnused(img, s.key);
    TakeSlot(System(img), MarkedOn(img), slots, i, s);
    StoreAfter(img, img', i, s, {e.sector as int});
  }

  /** Removing: the slot of a file is freed and its sectors are unmarked. */
  lemma RemoveKeepsSound(img: Image, img': Image, i: nat, key: CString)
    requires Sound(img) && i < NUM_DIR_ENTRIES && IsFile(img, i, key)
    requires TouchesOnly(img, img', i, {})
    requires SystemFiles(img') && TableOn(img') == TableOn(img)[i := TableOn(img)[i].(inUse := false)]
    requires MarkedOn(img') == MarkedOn(img) - Extent(SlotsOn(img)[i])
    ensures Sound(img')
    ensures Store(img') == Store(img) - {key}
  {
    SystemStays(img, img');
    SlotsAfter(img, img', i, TableOn(img)[i].(inUse := false), {});
    FreeSlot(System(img), MarkedOn(img), SlotsOn(img), i);
    StoreAfter(img, img', i, Free, {});
  }

  /** Writing: only the data sectors of one file change. */
  lemma WriteKeepsSound(img: Image, img': Image, i: nat, key: CString)
    requires Sound(img) && i < NUM_DIR_ENTRIES && IsFile(img, i, key)
    requires forall x :: 0 <= x < NUM_SECTORS && x !in DataSet(SlotsOn(img)[i].hdr) ==> img'[x] == img[x]
    ensures Sound(img')
    ensures Store(img') == Store(img)[key := Bytes(img', SlotsOn(img)[i].hdr)]
    ensures MarkedOn(img') == MarkedOn(img)
    ensures MapHeader(img') == MapHeader(img) && DirHeader(img') == DirHeader(img)
  {
    hide Usable, DataSet, Bytes, MarkedOn, TableOn, SlotsOn, SystemFiles, System;
    WriteStays(img, img', i);
    hide TouchesOnly, Consistent, GoodSlot;
    var s := SlotsOn(img)[i];
    StoreAfter(img, img', i, s, {});
    assert (Store(img) - {key})[key := Bytes(img', s.hdr)] == Store(img)[key := Bytes(img', s.hdr)];
  }

  lemma WriteStays(img: Image, img': Image, i: nat)
    requires Sound(img) && i < NUM_DIR_ENTRIES && GoodSlot(SlotsOn(img)[i]) && SlotsOn(img)[i].Taken?
    requires forall x :: 0 <= x < NUM_SECTORS && x !in DataSet(SlotsOn(img)[i].hdr) ==> img'[x] == img[x]
    ensures TouchesOnly(img, img', i, {})
    ensures SystemFiles(img') && System(img') == System(img) && MarkedOn(img') == MarkedOn(img)
    ensures MapHeader(img') == MapHeader(img) && DirHeader(img') == DirHeader(img)
    ensures SlotsOn(img') == SlotsOn(img) == SlotsOn(img)[i := SlotsOn(img)[i]]
  {
    hide Usable, DataSet, Bytes, DecodeHeader, BytesToTable, BytesToWords, Marked, BufferKey;
    var s, e := SlotsOn(img)[i], TableOn(img)[i];
    assert Extent(s) !! System(img);
    SystemStays(img, img');
    BytesFrame(img, img', MapHeader(img));
    BytesFrame(img, img', DirHeader(img));
    assert TableOn(img)[i := e] == TableOn(img);
    SlotsAfter(img, img', i, e, {});
    assert SlotOf(img', e) == s;
    assert SlotsOn(img)[i := s] == SlotsOn(img);
  }
}
