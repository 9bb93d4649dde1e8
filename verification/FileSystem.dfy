/** Creating, opening and removing files on the disk (filesys/filesys.cc). Each operation fetches
    the directory and the free map from their files, changes them in memory, and flushes them back
    only when it succeeds. */
module FileSystems {
  import opened Sectors
  import opened Encoding
  import opened FiniteSets
  import opened FileLayout
  import opened BitMaps
  import opened Directories
  import opened OpenFiles
  import opened FileHeaders
  import opened FileTable

  /** A write of the whole of a file replaces it, and a read of the whole delivers it. */
  lemma WholeFile(contents: seq<byte>, memory: seq<byte>)
    requires |contents| == |memory|
    ensures Written(contents, memory, |memory|, 0) == memory
    ensures Splice(memory, 0, Slice(contents, |memory|, 0)) == contents
  {
    assert memory[..|memory|] == memory;
  }

  /** The directory file was overwritten with the table `t`, and nothing else changed. */
  ghost predicate TableFlushed(img: Image, img': Image, d: Header, t: Table)
    requires Usable(d)
  {
    Bytes(img', d) == TableBytes(t) && forall s :: 0 <= s < NUM_SECTORS && s !in DataSet(d) ==> img'[s] == img[s]
  }

  /** The free map file was overwritten with the packed words, and nothing else changed. */
  ghost predicate WordsFlushed(img: Image, img': Image, m: Header, words: seq<bv32>)
    requires Usable(m)
  {
    Bytes(img', m) == WordBytes(words) && forall s :: 0 <= s < NUM_SECTORS && s !in DataSet(m) ==> img'[s] == img[s]
  }

  /** What the system files say once both are flushed, in either order. */
  lemma BothFlushed(img: Image, img1: Image, img2: Image, img3: Image, t: Table, words: seq<bv32>)
    requires SystemFiles(img) && |t| == NUM_DIR_ENTRIES && |words| * BITS_IN_WORD == NUM_SECTORS
    requires img1[FREE_MAP_SECTOR] == img[FREE_MAP_SECTOR] && img1[DIRECTORY_SECTOR] == img[DIRECTORY_SECTOR]
    requires (TableFlushed(img1, img2, DirHeader(img), t) && WordsFlushed(img2, img3, MapHeader(img), words))
          || (WordsFlushed(img1, img2, MapHeader(img), words) && TableFlushed(img2, img3, DirHeader(img), t))
    ensures SystemFiles(img3) && MapHeader(img3) == MapHeader(img) && DirHeader(img3) == DirHeader(img)
    ensures TableOn(img3) == t && MarkedOn(img3) == Marked(words, NUM_SECTORS)
    ensures forall s :: 0 <= s < NUM_SECTORS && s !in System(img) ==> img3[s] == img1[s]
    ensures img3[FREE_MAP_SECTOR] == img[FREE_MAP_SECTOR] && img3[DIRECTORY_SECTOR] == img[DIRECTORY_SECTOR]
  {
    hide DecodeHeader, Bytes, BytesToTable, TableBytes, BytesToWords, WordBytes, Marked, Usable, DataSet;
    SystemStays(img, img3);
    if TableFlushed(img1, img2, DirHeader(img), t) && WordsFlushed(img2, img3, MapHeader(img), words) {
      BytesFrame(img2, img3, DirHeader(img));
    } else {
      BytesFrame(img2, img3, MapHeader(img));
    }
    TableRoundTrip(t);
    WordsRoundTrip(words);
  }

  class FileSystem {
    const disk: SynchDisk
    const freeMapFile: OpenFile
    const directoryFile: OpenFile

    ghost predicate Valid()
      reads disk
    {
      && freeMapFile.disk == disk && directoryFile.disk == disk
      && Sound(disk.image)
      && freeMapFile.hdr == MapHeader(disk.image) && directoryFile.hdr == DirHeader(disk.image)
    }

    /** The file store the disk represents. */
    ghost function Files(): map<CString, seq<byte>>
      requires Valid()
      reads disk
    {
      Store(disk.image)
    }

    /** The sectors the free map has marked. */
    ghost function InUse(): set<int>
      requires Valid()
      reads disk
    {
      MarkedOn(disk.image)
    }

    method FetchDirectory() returns (directory: Directory)
      requires Valid()
      ensures fresh(directory) && fresh(directory.table) && directory.Valid() && directory.tableSize == NUM_DIR_ENTRIES
      ensures directory.table[..] == TableOn(disk.image)
    {
      hide TableBytes, BytesToTable, Splice, Slice, Bytes, MarkedOn, System;
      directory := new Directory(NUM_DIR_ENTRIES);
      WholeFile(directoryFile.Contents(), TableBytes(directory.table[..]));
      directory.FetchFrom(directoryFile);
    }

    method FetchFreeMap() returns (freeMap: BitMap)
      requires Valid()
      ensures fresh(freeMap) && fresh(freeMap.words) && freeMap.Valid() && freeMap.numBits == NUM_SECTORS
      ensures freeMap.Contents() == InUse()
    {
      hide WordBytes, BytesToWords, Splice, Slice, Bytes, TableOn, System, SlotsOn, Consistent, Marked;
      freeMap := new BitMap(NUM_SECTORS);
      WholeFile(freeMapFile.Contents(), WordBytes(freeMap.words[..]));
      freeMap.FetchFrom(freeMapFile);
    }

    /** Opens the file system on a disk that holds one already. */
    constructor Mount(disk: SynchDisk)
      requires Sound(disk.image)
      ensures Valid() && this.disk == disk && Files() == Store(disk.image)
    {
      this.disk := disk;
      freeMapFile := new OpenFile(disk, FREE_MAP_SECTOR);
      directoryFile := new OpenFile(disk, DIRECTORY_SECTOR);
    }

    /** Marks the header sectors of the system files and allocates their data. */
    static method AllocateSystem(freeMap: BitMap, mapHdr: FileHeader, dirHdr: FileHeader)
      requires freeMap.Valid() && freeMap.numBits == NUM_SECTORS && freeMap.Contents() == {} && mapHdr != dirHdr
      modifies freeMap.words, mapHdr, dirHdr
      ensures freeMap.Valid()
      ensures SystemHeaders(mapHdr.Value(), dirHdr.Value())
      ensures freeMap.Contents() == SystemSectors(mapHdr.Value(), dirHdr.Value())
    {
      hide Marked, DataSet, Prefix;
      freeMap.Mark(FREE_MAP_SECTOR);
      freeMap.Mark(DIRECTORY_SECTOR);
      assert freeMap.Contents() == {FREE_MAP_SECTOR, DIRECTORY_SECTOR};
      var granted := mapHdr.Allocate(freeMap, FREE_MAP_FILE_SIZE);
      assert granted;
      ghost var m := mapHdr.Value();
      ApartSize({FREE_MAP_SECTOR, DIRECTORY_SECTOR}, DataSet(m));
      granted := dirHdr.Allocate(freeMap, DIRECTORY_FILE_SIZE);
      assert granted;
    }

    /** Writes the headers of the system files to their sectors. */
    static method WriteSystem(disk: SynchDisk, mapHdr: FileHeader, dirHdr: FileHeader)
      requires SystemHeaders(mapHdr.Value(), dirHdr.Value())
      modifies disk
      ensures SystemFiles(disk.image) && Usable(MapHeader(disk.image)) && Usable(DirHeader(disk.image))
      ensures MapHeader(disk.image) == mapHdr.Value() && DirHeader(disk.image) == dirHdr.Value()
      ensures MapHeader(disk.image).numBytes == FREE_MAP_FILE_SIZE
      ensures DirHeader(disk.image).numBytes == DIRECTORY_FILE_SIZE
    {
      hide Usable, DecodeHeader, EncodeHeader, DataSet;
      SystemWritten(disk.image, mapHdr.Value(), dirHdr.Value());
      mapHdr.WriteBack(disk, FREE_MAP_SECTOR);
      dirHdr.WriteBack(disk, DIRECTORY_SECTOR);
    }

    /** Makes an empty file system on a disk that may hold anything. */
    constructor Format(disk: SynchDisk)
      modifies disk
      ensures Valid() && this.disk == disk && Files() == map[] && InUse() == System(disk.image)
    {
      hide Marked, Usable, DataSet, Bytes, TableOn, SlotsOn, System, MarkedOn, Prefix, DecodeHeader, EncodeHeader,
        WordsFlushed, TableFlushed, Store, Consistent, SystemSectors, Sound, SystemHeaders, SystemFiles;
      var freeMap := new BitMap(NUM_SECTORS);
      var directory := new Directory(NUM_DIR_ENTRIES);
      var mapHdr := new FileHeader();
      var dirHdr := new FileHeader();
      AllocateSystem(freeMap, mapHdr, dirHdr);
      WriteSystem(disk, mapHdr, dirHdr);
      freeMapFile := new OpenFile(disk, FREE_MAP_SECTOR);
      directoryFile := new OpenFile(disk, DIRECTORY_SECTOR);
      this.disk := disk;
      new;
      ghost var img1 := disk.image;
      FlushFreeMap(freeMap);
      ghost var img2 := disk.image;
      FlushDirectory(directory);
      Formatted(img1, img2, disk.image, directory.table[..], freeMap.words[..]);
    }

    method FlushDirectory(directory: Directory)
      requires directoryFile.disk == disk
      requires Usable(directoryFile.hdr) && directoryFile.hdr.numBytes == DIRECTORY_FILE_SIZE
      requires directory.Valid() && directory.tableSize == NUM_DIR_ENTRIES
      modifies disk
      ensures TableFlushed(old(disk.image), disk.image, directoryFile.hdr, directory.table[..])
    {
      hide TableBytes, Written, Bytes, DataSet;
      WholeFile(directoryFile.Contents(), TableBytes(directory.table[..]));
      directory.WriteBack(directoryFile);
    }

    method FlushFreeMap(freeMap: BitMap)
      requires freeMapFile.disk == disk && Usable(freeMapFile.hdr) && freeMapFile.hdr.numBytes == FREE_MAP_FILE_SIZE
      requires freeMap.Valid() && freeMap.numBits == NUM_SECTORS
      modifies disk
      ensures WordsFlushed(old(disk.image), disk.image, freeMapFile.hdr, freeMap.words[..])
    {
      hide WordBytes, Written, Bytes, DataSet;
      WholeFile(freeMapFile.Contents(), WordBytes(freeMap.words[..]));
      freeMap.WriteBack(freeMapFile);
    }

    /** The writes of a successful Create: the new header, then the directory, then the free map. */
    method FlushNewFile(directory: Directory, freeMap: BitMap, hdr: FileHeader, name: CString, ghost i: int,
                        sector: int)
      requires Valid()
      requires directory.Valid() && directory.tableSize == NUM_DIR_ENTRIES
      requires freeMap.Valid() && freeMap.numBits == NUM_SECTORS
      requires NewFile(disk.image, name, i, sector, hdr.Value(), directory.table[..], freeMap.Contents())
      modifies disk
      ensures Valid()
      ensures CreatedOn(old(disk.image), disk.image, Key(name), hdr.numBytes)
    {
      hide MarkedOn, TableOn, SlotsOn, System, Usable, DataSet, Bytes, Marked, Consistent, SystemHeaders, MapHeader,
        DirHeader, NewFile, TableFlushed, WordsFlushed, CreatedOn;
      ghost var img := disk.image;
      SystemUsable(img);
      NewFileSector(img, name, i, sector, hdr.Value(), directory.table[..], freeMap.Contents());
      hdr.WriteBack(disk, sector);
      ghost var img1 := disk.image;
      FlushDirectory(directory);
      ghost var img2 := disk.image;
      FlushFreeMap(freeMap);
      Created(img, img1, img2, disk.image, name, i, sector, hdr.Value(), directory.table[..], freeMap.words[..]);
    }

    /** The part of Create that works in memory: fetches both system files and claims an entry, a
        header sector and data sectors there. Nothing is written to the disk. */
    method Claim(name: CString, initialSize: int32)
      returns (success: bool, directory: Directory, freeMap: BitMap?, hdr: FileHeader, sector: int, ghost i: int)
      requires Valid() && 0 <= initialSize
      requires initialSize <= MAX_FILE_SIZE || !CanCreate(TableOn(disk.image), InUse(), Key(name), initialSize)
      ensures success <==> CanCreate(TableOn(disk.image), InUse(), Key(name), initialSize)
      ensures fresh(directory) && fresh(directory.table) && fresh(hdr)
      ensures success ==> freeMap != null && fresh(freeMap) && fresh(freeMap.words)
      ensures success ==> directory.Valid() && directory.tableSize == NUM_DIR_ENTRIES
      ensures success ==> freeMap.Valid() && freeMap.numBits == NUM_SECTORS
      ensures success ==> hdr.numBytes == initialSize
      ensures success ==> NewEntry(TableOn(disk.image), directory.table[..], i, name, sector)
      ensures success ==> NewExtent(InUse(), sector, hdr.Value(), freeMap.Contents())
      ensures success ==> forall s :: 0 <= s < sector ==> s in InUse()
    {
      hide MarkedOn, TableOn, SlotsOn, System, Usable, DataSet, Bytes, Marked, Consistent, SystemHeaders, MapHeader,
        DirHeader, Store, IsFile, Prefix, IndexOf, Added, NewExtent;
      ghost var before := InUse();
      success := false;
      i, sector := 0, -1;
      hdr := new FileHeader();
      freeMap := null;
      directory := FetchDirectory();
      var found := directory.Find(name);
      if found == -1 {
        freeMap := FetchFreeMap();
        sector := freeMap.Find();
        if sector == -1 { AllMarked(before); }
        if sector != -1 {
          var added := directory.Add(name, sector);
          if added {
            var granted := hdr.Allocate(freeMap, initialSize);
            if granted {
              i :| 0 <= i < NUM_DIR_ENTRIES && Added(TableOn(disk.image), directory.table[..], i, name, sector);
              ClaimedExtent(before, sector, hdr.Value(), freeMap.Contents());
              success := true;
            }
          }
        }
      }
    }

    /** Creates a file of a given size with whatever bytes its sectors hold. It fails, leaving the
        disk as it was, exactly when the name is taken, ten files exist, or the size is more than a header
        can hold: for a size it can hold the disk itself never runs out. A larger size must be refused on
        one of the other grounds or for want of sectors, because the code does not look at it. The new
        file's header and data come from unmarked sectors. */
    method Create(name: CString, initialSize: int32) returns (success: bool)
      requires Valid() && 0 <= initialSize
      requires initialSize <= MAX_FILE_SIZE || Key(name) in Files() || |Files()| >= NUM_DIR_ENTRIES
            || NUM_SECTORS - |InUse()| < 1 + DivRoundUp(initialSize, SECTOR_SIZE)
      modifies disk
      ensures Valid()
      ensures success <==> Key(name) !in old(Files()) && |old(Files())| < NUM_DIR_ENTRIES
                           && initialSize <= MAX_FILE_SIZE
      ensures !success ==> disk.image == old(disk.image)
      ensures success ==> CreatedOn(old(disk.image), disk.image, Key(name), initialSize)
    {
      hide MarkedOn, TableOn, SlotsOn, System, Usable, DataSet, Bytes, Marked, Consistent, SystemHeaders, MapHeader,
        DirHeader, CreatedOn, Store, IsFile, Prefix, NewExtent, Added;
      LookUp(disk.image, Key(name));
      RoomInDirectory(disk.image);
      SectorsInUse(disk.image);
      var directory, freeMap, hdr, sector;
      ghost var i;
      success, directory, freeMap, hdr, sector, i := Claim(name, initialSize);
      if success {
        FlushNewFile(directory, freeMap, hdr, name, i, sector);
      }
    }

    /** The in-memory part of Remove: the sectors of the file are given back, each of them found
        marked, and its entry is freed. */
    method Release(name: CString)
      returns (success: bool, directory: Directory, freeMap: BitMap?)
      requires Valid()
      ensures success <==> IndexOf(TableOn(disk.image), Key(name)) != -1
      ensures fresh(directory) && fresh(directory.table)
      ensures success ==> freeMap != null && fresh(freeMap) && fresh(freeMap.words)
      ensures success ==> directory.Valid() && directory.tableSize == NUM_DIR_ENTRIES
      ensures success ==> freeMap.Valid() && freeMap.numBits == NUM_SECTORS
      ensures success ==> Key(name) in Files()
      ensures success ==> Released(disk.image, Key(name), directory.table[..], freeMap.Contents())
    {
      hide MarkedOn, TableOn, SlotsOn, System, Usable, DataSet, Bytes, Marked, Consistent, SystemHeaders, MapHeader,
        DirHeader, Store, Prefix, IndexOf, Extent, Released;
      directory := FetchDirectory();
      var sector := directory.Find(name);
      SectorFound(disk.image, Key(name));
      if sector == -1 {
        return false, directory, null;
      }
      var fileHdr := new FileHeader();
      fileHdr.FetchFrom(disk, sector);
      ReleaseMarked(disk.image, Key(name), sector, fileHdr.Value());
      freeMap := FetchFreeMap();
      fileHdr.Deallocate(freeMap);
      freeMap.Clear(sector);
      var _ := directory.Remove(name);
      ReleasedAll(disk.image, Key(name), sector, fileHdr.Value(), directory.table[..], freeMap.Contents());
      success := true;
    }

    /** Removes a file. It fails, leaving the disk as it was, exactly when there is no such file;
        otherwise the file's sectors, and no others, become free. */
    method Remove(name: CString) returns (success: bool)
      requires Valid()
      modifies disk
      ensures Valid()
      ensures success <==> Key(name) in old(Files())
      ensures !success ==> disk.image == old(disk.image)
      ensures success ==> RemovedFrom(old(disk.image), disk.image, Key(name))
    {
      hide MarkedOn, TableOn, SlotsOn, System, Usable, DataSet, Bytes, Marked, Consistent, SystemHeaders, MapHeader,
        DirHeader, Store, IsFile, Prefix, IndexOf, Released, TableFlushed, WordsFlushed, ExtentAt;
      ghost var img := disk.image;
      LookUp(img, Key(name));
      SystemUsable(img);
      var directory, freeMap;
      success, directory, freeMap := Release(name);
      if success {
        FlushFreeMap(freeMap);
        ghost var img2 := disk.image;
        FlushDirectory(directory);
        Removed(img, img2, disk.image, Key(name), directory.table[..], freeMap.words[..]);
      }
    }

    /** Opens a file by name: null exactly when there is none. */
    method Open(name: CString) returns (file: OpenFile?)
      requires Valid()
      ensures file == null <==> Key(name) !in Files()
      ensures file != null ==> fresh(file) && file.disk == disk && file.seekPosition == 0
      ensures file != null ==> OpenedAt(disk.image, Key(name), file.hdr)
    {
      hide MarkedOn, TableOn, SlotsOn, System, Usable, DataSet, Bytes, Marked, Consistent, SystemHeaders, MapHeader,
        DirHeader, Store, Prefix, IndexOf, Extent, OpenedAt;
      file := null;
      var directory := FetchDirectory();
      var sector := directory.Find(name);
      SectorFound(disk.image, Key(name));
      if sector >= 0 {
        file := new OpenFile(disk, sector);
        OpenedSlot(disk.image, Key(name), sector, file.hdr);
      }
    }
  }

  /** The headers of the system files, once written, are what the disk's invariant reads. */
  lemma SystemWritten(img: Image, m: Header, d: Header)
    requires SystemHeaders(m, d)
    ensures var img1 := img[FREE_MAP_SECTOR := EncodeHeader(m)][DIRECTORY_SECTOR := EncodeHeader(d)];
            SystemFiles(img1) && MapHeader(img1) == m && DirHeader(img1) == d && System(img1) == SystemSectors(m, d)
  {
    hide DecodeHeader, EncodeHeader, Usable, DataSet;
    HeaderRoundTrip(m);
    HeaderRoundTrip(d);
  }

  /** A disk with fresh system files, an empty table and only the system's sectors marked is sound. */
  lemma Formatted(img1: Image, img2: Image, img3: Image, t: Table, words: seq<bv32>)
    requires SystemFiles(img1) && |t| == NUM_DIR_ENTRIES && |words| * BITS_IN_WORD == NUM_SECTORS
    requires forall i :: 0 <= i < |t| ==> !t[i].inUse
    requires Marked(words, NUM_SECTORS) == SystemSectors(MapHeader(img1), DirHeader(img1))
    requires WordsFlushed(img1, img2, MapHeader(img1), words) && TableFlushed(img2, img3, DirHeader(img1), t)
    ensures Sound(img3) && MapHeader(img3) == MapHeader(img1) && DirHeader(img3) == DirHeader(img1)
    ensures Store(img3) == map[] && MarkedOn(img3) == System(img3)
  {
    hide DecodeHeader, Bytes, BytesToTable, TableBytes, BytesToWords, WordBytes, Marked, Usable, DataSet, TableFlushed,
      WordsFlushed, MarkedOn, TableOn, BufferKey;
    BothFlushed(img1, img1, img2, img3, t, words);
    SystemStays(img1, img3);
    NoFiles(img3, SlotsOn(img3), NUM_DIR_ENTRIES);
  }

  lemma {:induction false} NoFiles(img: Image, slots: seq<Slot>, n: nat)
    requires n <= |slots| && forall i :: 0 <= i < n ==> slots[i].Free?
    ensures Files(img, slots, n) == map[] && Extents(slots, n) == {}
  {
    if n > 0 { NoFiles(img, slots, n - 1); }
  }

  lemma SystemUsable(img: Image)
    requires Sound(img)
    ensures Usable(MapHeader(img)) && MapHeader(img).numBytes == FREE_MAP_FILE_SIZE
    ensures Usable(DirHeader(img)) && DirHeader(img).numBytes == DIRECTORY_FILE_SIZE
  {
  }

  /** What Create asks of the directory and the free map: the name is new, an entry is unused, and
      there are sectors for a header and the data. */
  ghost predicate CanCreate(t: Table, marked: set<int>, key: CString, size: int)
    requires size >= 0
  {
    && IndexOf(t, key) == -1
    && (exists i :: 0 <= i < |t| && !t[i].inUse)
    && NUM_SECTORS - |marked| >= 1 + DivRoundUp(size, SECTOR_SIZE)
  }

  /** An entry newly taken for a header in a sector of the disk. */
  ghost predicate NewEntry(before: Table, after: Table, i: int, name: CString, sector: int) {
    0 <= sector < NUM_SECTORS && Added(before, after, i, name, sector)
  }

  /** With every sector marked there is no room for a header. */
  lemma AllMarked(marked: set<int>)
    requires forall s :: 0 <= s < NUM_SECTORS ==> s in marked
    ensures |marked| >= NUM_SECTORS
  {
    SubsetSize(Range(NUM_SECTORS), marked);
  }

  lemma ClaimedExtent(before: set<int>, sector: int, h: Header, after: set<int>)
    requires sector !in before && Usable(h) && DataSet(h) !! before + {sector}
    requires |DataSet(h)| == DivRoundUp(h.numBytes, SECTOR_SIZE)
    requires after == before + {sector} + DataSet(h)
    ensures NewExtent(before, sector, h, after)
  {
    hide DataSet;
  }

  /** A header sector and data sectors newly marked. */
  ghost predicate NewExtent(before: set<int>, sector: int, h: Header, after: set<int>) {
    && sector !in before
    && Usable(h) && DataSet(h) !! before && sector !in DataSet(h)
    && |DataSet(h)| == h.numSectors
    && after == before + {sector} + DataSet(h)
  }

  /** What a successful Create has in memory before it flushes anything. */
  ghost predicate NewFile(img: Image, name: CString, i: int, sector: int, h: Header, t: Table, marked: set<int>)
    requires Sound(img)
  {
    && Key(name) !in Store(img)
    && NewEntry(TableOn(img), t, i, name, sector)
    && NewExtent(MarkedOn(img), sector, h, marked)
  }

  lemma NewFileSector(img: Image, name: CString, i: int, sector: int, h: Header, t: Table, marked: set<int>)
    requires Sound(img) && NewFile(img, name, i, sector, h, t, marked)
    ensures 0 <= sector < NUM_SECTORS
  {
    hide TableOn, MarkedOn, Usable;
  }

  /** What a successful Create does to the disk: a new file of `size` bytes under `key`, whose
      header and data are the newly marked sectors, and no other change to any file. */
  ghost predicate CreatedOn(img: Image, img': Image, key: CString, size: int)
    requires Sound(img) && Sound(img') && size >= 0
  {
    && key in Store(img') && |Store(img')[key]| == size
    && Store(img') == Store(img)[key := Store(img')[key]]
    && ExtentAt(img', key) !! MarkedOn(img)
    && MarkedOn(img') == MarkedOn(img) + ExtentAt(img', key)
    && |ExtentAt(img', key)| == 1 + DivRoundUp(size, SECTOR_SIZE)
  }

  /** The three writes of a successful Create. */
  ghost predicate CreateWrites(img: Image, img1: Image, img2: Image, img3: Image, sector: int, h: Header,
                               t: Table, words: seq<bv32>)
    requires Usable(MapHeader(img)) && Usable(DirHeader(img)) && 0 <= sector < NUM_SECTORS
  {
    && img1 == img[sector := EncodeHeader(h)]
    && TableFlushed(img1, img2, DirHeader(img), t)
    && WordsFlushed(img2, img3, MapHeader(img), words)
  }

  /** The system's sectors are marked. */
  lemma SystemMarked(img: Image)
    requires Sound(img)
    ensures System(img) <= MarkedOn(img)
    ensures FREE_MAP_SECTOR in System(img) && DIRECTORY_SECTOR in System(img)
  {
    hide SlotsOn, MarkedOn, DataSet;
  }

  lemma CreateReachesDisk(img: Image, img1: Image, img2: Image, img3: Image, name: CString, i: int, sector: int,
                          h: Header, t: Table, words: seq<bv32>)
    requires Sound(img) && SystemFiles(img)
    requires |words| * BITS_IN_WORD == NUM_SECTORS && |t| == NUM_DIR_ENTRIES
    requires NewFile(img, name, i, sector, h, t, Marked(words, NUM_SECTORS))
    requires 0 <= sector < NUM_SECTORS && CreateWrites(img, img1, img2, img3, sector, h, t, words)
    ensures 0 <= i < NUM_DIR_ENTRIES && NewHeader(t[i], h) && Takes(img, img3, i, t[i], h)
    ensures MapHeader(img3) == MapHeader(img) && DirHeader(img3) == DirHeader(img)
  {
    hide DecodeHeader, EncodeHeader, BytesToTable, BytesToWords, Marked, Bytes, BufferKey, CopyName, Usable, DataSet,
      Consistent, SystemHeaders, MapHeader, DirHeader, SlotsOn, TableFlushed, WordsFlushed, TableOn;
    SystemMarked(img);
    BothFlushed(img, img1, img2, img3, t, words);
    HeaderRoundTrip(h);
    hide System, MarkedOn;
    assert TouchesOnly(img, img3, i, {sector});
  }

  lemma Created(img: Image, img1: Image, img2: Image, img3: Image, name: CString, i: int, sector: int, h: Header,
                t: Table, words: seq<bv32>)
    requires Sound(img) && SystemFiles(img)
    requires |words| * BITS_IN_WORD == NUM_SECTORS && |t| == NUM_DIR_ENTRIES
    requires NewFile(img, name, i, sector, h, t, Marked(words, NUM_SECTORS))
    requires 0 <= sector < NUM_SECTORS && CreateWrites(img, img1, img2, img3, sector, h, t, words)
    ensures Sound(img3) && MapHeader(img3) == MapHeader(img) && DirHeader(img3) == DirHeader(img)
    ensures h.numBytes >= 0 && CreatedOn(img, img3, Key(name), h.numBytes)
  {
    hide DecodeHeader, EncodeHeader, BytesToTable, BytesToWords, Marked, BufferKey, CopyName, DataSet,
      Consistent, SystemHeaders, MapHeader, DirHeader, TableFlushed, WordsFlushed, TableOn, CreateWrites,
      SlotsOn, MarkedOn, System, TouchesOnly;
    CreateReachesDisk(img, img1, img2, img3, name, i, sector, h, t, words);
    CopyNameKey(TableOn(img)[i].name, name);
    FreeEntry(img, i);
    CreateKeepsSound(img, img3, i, t[i], h);
    NewSlot(img3, i, Taken(Key(name), sector, h));
    hide Bytes;
    UnitPlus(sector, DataSet(h));
  }

  lemma FreeEntry(img: Image, i: int)
    requires Sound(img) && 0 <= i < NUM_DIR_ENTRIES && !TableOn(img)[i].inUse
    ensures SlotsOn(img)[i].Free?
  {
  }

  lemma UnitPlus(x: int, s: set<int>)
    requires x !in s
    ensures |{x} + s| == 1 + |s|
  {
  }

  /** The extent of a file is that of the slot that names it. */
  lemma NewSlot(img: Image, i: int, s: Slot)
    requires Sound(img) && 0 <= i < NUM_DIR_ENTRIES && SlotsOn(img)[i] == s && s.Taken?
    ensures s.key in Store(img) && GoodSlot(s) && ExtentAt(img, s.key) == Extent(s)
  {
    hide DecodeHeader, BytesToTable, Bytes, BufferKey, Marked, Usable, DataSet, SlotsOn, System, MarkedOn;
    SoundSlots(img);
    FilesSlot(img, SlotsOn(img), NUM_DIR_ENTRIES, i);
    ExtentOfSlot(img, i, s.key);
  }

  /** The entry of a name leads to the header of its file; without an entry there is no file. */
  lemma SectorFound(img: Image, key: CString)
    requires Sound(img)
    ensures IndexOf(TableOn(img), key) == -1 <==> key !in Store(img)
    ensures IndexOf(TableOn(img), key) != -1 ==> IsFile(img, IndexOf(TableOn(img), key), key)
    ensures IndexOf(TableOn(img), key) != -1 ==> 0 <= TableOn(img)[IndexOf(TableOn(img), key)].sector < NUM_SECTORS
  {
    hide MarkedOn, System, Usable, DataSet, Bytes, IndexFrom, Files, BufferKey, DecodeHeader, BytesToTable;
    LookUp(img, key);
  }

  /** The entry of a name points at `sector`, and there the header of its file lies. */
  ghost predicate LeadsTo(img: Image, key: CString, sector: int, h: Header)
    requires SystemFiles(img)
  {
    var (t, i) := (TableOn(img), IndexOf(TableOn(img), key));
    && 0 <= i < |t| && sector == t[i].sector && 0 <= sector < NUM_SECTORS && h == DecodeHeader(img[sector])
    && Sound(img) && IsFile(img, i, key)
  }

  /** What Release leaves in memory. */
  ghost predicate Released(img: Image, key: CString, t: Table, marked: set<int>)
    requires Sound(img) && key in Store(img)
  {
    var i := IndexOf(TableOn(img), key);
    && 0 <= i < NUM_DIR_ENTRIES
    && t == TableOn(img)[i := TableOn(img)[i].(inUse := false)]
    && marked == MarkedOn(img) - ExtentAt(img, key)
  }

  /** A header fetched from `sector` makes up this extent, and all its sectors are marked. */
  ghost predicate FetchedFor(extent: set<int>, marked: set<int>, sector: int, h: Header) {
    Usable(h) && sector !in DataSet(h) && extent == {sector} + DataSet(h) && extent <= marked
  }

  lemma ReleaseMarked(img: Image, key: CString, sector: int, h: Header)
    requires Sound(img) && key in Store(img) && LeadsTo(img, key, sector, h)
    ensures FetchedFor(ExtentAt(img, key), MarkedOn(img), sector, h)
    ensures Usable(h) && DataSet(h) <= MarkedOn(img) && sector in MarkedOn(img)
  {
    hide MarkedOn, System, Usable, DataSet, Bytes, IndexFrom, Files, BufferKey, DecodeHeader, BytesToTable;
    var i := IndexOf(TableOn(img), key);
    SoundSlots(img);
    ExtentOfSlot(img, i, key);
    ExtentsHas(SlotsOn(img), NUM_DIR_ENTRIES, i);
  }

  lemma ReleasedAll(img: Image, key: CString, sector: int, h: Header, t: Table, marked: set<int>)
    requires Sound(img) && key in Store(img) && FetchedFor(ExtentAt(img, key), MarkedOn(img), sector, h)
    requires var i := IndexOf(TableOn(img), key);
             i != -1 && IsFile(img, i, key) && t == TableOn(img)[i := TableOn(img)[i].(inUse := false)]
    requires marked == MarkedOn(img) - DataSet(h) - {sector}
    ensures Released(img, key, t, marked)
  {
    hide MarkedOn, System, DataSet, Bytes, IndexOf, Files, BufferKey, DecodeHeader, BytesToTable, ExtentAt, SlotsOn;
    assert MarkedOn(img) - DataSet(h) - {sector} == MarkedOn(img) - ({sector} + DataSet(h));
  }

  lemma Removed(img: Image, img2: Image, img3: Image, key: CString, t: Table, words: seq<bv32>)
    requires Sound(img) && SystemFiles(img) && key in Store(img)
    requires |words| * BITS_IN_WORD == NUM_SECTORS && |t| == NUM_DIR_ENTRIES
    requires Released(img, key, t, Marked(words, NUM_SECTORS))
    requires WordsFlushed(img, img2, MapHeader(img), words) && TableFlushed(img2, img3, DirHeader(img), t)
    ensures Sound(img3) && MapHeader(img3) == MapHeader(img) && DirHeader(img3) == DirHeader(img)
    ensures Store(img3) == Store(img) - {key}
    ensures MarkedOn(img3) == MarkedOn(img) - ExtentAt(img, key)
  {
    hide DecodeHeader, BytesToTable, BytesToWords, Marked, Bytes, BufferKey, Usable, DataSet, Consistent, SystemHeaders,
      MapHeader, DirHeader, SlotsOn, TableFlushed, WordsFlushed, TableOn, MarkedOn, Store, IndexOf, Extent;
    var i := IndexOf(TableOn(img), key);
    SystemMarked(img);
    LookUp(img, key);
    ExtentOfSlot(img, i, key);
    BothFlushed(img, img, img2, img3, t, words);
    hide System;
    RemoveKeepsSound(img, img3, i, key);
  }

  /** An open file of the store: its header is that of the slot the name leads to. */
  ghost predicate OpenedAt(img: Image, key: CString, h: Header)
    requires Sound(img)
  {
    && key in Store(img)
    && IndexOf(TableOn(img), key) != -1 && IsFile(img, IndexOf(TableOn(img), key), key)
    && SlotsOn(img)[IndexOf(TableOn(img), key)].hdr == h
    && Usable(h) && Bytes(img, h) == Store(img)[key]
  }

  lemma OpenedSlot(img: Image, key: CString, sector: int, h: Header)
    requires Sound(img) && LeadsTo(img, key, sector, h)
    ensures OpenedAt(img, key, h)
  {
    hide MarkedOn, System, Usable, DataSet, Bytes, IndexFrom, Files, BufferKey, DecodeHeader, BytesToTable;
  }

  /** What a successful Remove does to the disk: the file is gone, its sectors and no others are
      free again, and no other file changes. */
  ghost predicate RemovedFrom(img: Image, img': Image, key: CString)
    requires Sound(img) && Sound(img')
  {
    && key in Store(img)
    && Store(img') == Store(img) - {key}
    && MarkedOn(img') == MarkedOn(img) - ExtentAt(img, key)
  }

  /** Create is reversible: removing the new file restores the free set and the files exactly. */
  lemma CreateThenRemove(img: Image, img1: Image, img2: Image, key: CString, size: nat)
    requires Sound(img) && Sound(img1) && Sound(img2)
    requires key !in Store(img) && CreatedOn(img, img1, key, size) && RemovedFrom(img1, img2, key)
    ensures Store(img2) == Store(img)
    ensures MarkedOn(img2) == MarkedOn(img)
  {
    hide Sound, Store, MarkedOn, ExtentAt;
  }

  /** A successful Create lowers the number of clear sectors by the header and the data. */
  lemma CreateCost(img: Image, img1: Image, key: CString, size: nat)
    requires Sound(img) && Sound(img1) && CreatedOn(img, img1, key, size)
    ensures |MarkedOn(img1)| == |MarkedOn(img)| + 1 + DivRoundUp(size, SECTOR_SIZE)
  {
    hide SystemFiles, Consistent, Store, MarkedOn, ExtentAt;
    ApartSize(MarkedOn(img), ExtentAt(img1, key));
  }

  /** Writing through an open file changes that file of the store and nothing else. */
  lemma WriteThrough(img: Image, img': Image, key: CString, h: Header, from: seq<byte>, numBytes: int, position: nat)
    requires Sound(img) && OpenedAt(img, key, h) && Transferred(h.numBytes, numBytes, position) <= |from|
    requires Bytes(img', h) == Written(Bytes(img, h), from, numBytes, position)
    requires forall s :: 0 <= s < NUM_SECTORS && s !in DataSet(h) ==> img'[s] == img[s]
    ensures Sound(img') && MapHeader(img') == MapHeader(img) && DirHeader(img') == DirHeader(img)
    ensures Store(img') == Store(img)[key := Written(Store(img)[key], from, numBytes, position)]
    ensures MarkedOn(img') == MarkedOn(img)
  {
    hide DataSet, Bytes, Written, Usable, MarkedOn, Consistent, SystemHeaders, DecodeHeader, TableOn, IndexOf;
    WriteKeepsSound(img, img', IndexOf(TableOn(img), key), key);
  }
}
