/** Allocating and releasing the sectors of a file (filesys/filehdr.cc, Allocate and Deallocate). */
module FileHeaders {
  import opened Sectors
  import opened Encoding
  import opened FileLayout
  import opened BitMaps

  /** The first `n` entries are distinct sector numbers that were not marked before. */
  ghost predicate Fresh(table: seq<int32>, n: int, before: set<int>)
    requires 0 <= n <= |table|
  {
    && (forall k :: 0 <= k < n ==> 0 <= table[k] < NUM_SECTORS && table[k] as int !in before)
    && (forall j, k :: 0 <= j < k < n ==> table[j] != table[k])
  }

  lemma FreshSize(table: seq<int32>, n: int, before: set<int>)
    requires 0 <= n <= |table| && Fresh(table, n, before)
    ensures |Prefix(table, n)| == n
    ensures Prefix(table, n) !! before
  {
    PrefixSize(table, n);
    FreshApart(table, n, before);
  }

  lemma {:induction false} FreshApart(table: seq<int32>, n: int, before: set<int>)
    requires 0 <= n <= |table| && Fresh(table, n, before)
    ensures Prefix(table, n) !! before
  {
    if n > 0 { FreshApart(table, n - 1, before); }
  }

  /** Each entry is the lowest sector number that was not taken before, by others or by earlier entries. */
  ghost predicate Lowest(table: seq<int32>, n: int, before: set<int>)
    requires 0 <= n <= |table|
  {
    forall k :: 0 <= k < n ==> LowestAt(table, k, before)
  }

  ghost predicate LowestAt(table: seq<int32>, k: int, before: set<int>)
    requires 0 <= k < |table|
  {
    forall s :: 0 <= s < table[k] ==> s in before || exists j :: 0 <= j < k && table[j] == s
  }

  lemma LowestExtend(table: seq<int32>, n: int, before: set<int>, sector: int32)
    requires 0 <= n < |table| && Lowest(table, n, before)
    requires forall s :: 0 <= s < sector ==> s in before + Prefix(table, n)
    ensures Lowest(table[n := sector], n + 1, before)
  {
    hide Prefix;
    var after := table[n := sector];
    forall k | 0 <= k < n + 1
      ensures LowestAt(after, k, before)
    {
      forall s | 0 <= s < after[k] && s !in before
        ensures exists j :: 0 <= j < k && after[j] == s
      {
        if k == n {
          assert s in before + Prefix(table, n);
          var j := PrefixMember(table, n, s);
          assert after[j] == s;
        } else {
          assert LowestAt(table, k, before);
          var j :| 0 <= j < k && table[j] == s;
          assert after[j] == s;
        }
      }
    }
  }

  lemma NoneFresh(table: seq<int32>, before: set<int>)
    ensures Fresh(table, 0, before) && Lowest(table, 0, before) && Prefix(table, 0) == {}
  {
  }

  lemma {:induction false} PrefixStore(table: seq<int32>, n: int, m: int, sector: int32)
    requires 0 <= m <= n < |table|
    ensures Prefix(table[n := sector], m) == Prefix(table, m)
  {
    if m > 0 { PrefixStore(table, n, m - 1, sector); }
  }

  lemma FreshExtend(table: seq<int32>, n: int, before: set<int>, sector: int32)
    requires 0 <= n < |table| && Fresh(table, n, before)
    requires 0 <= sector < NUM_SECTORS && sector as int !in before + Prefix(table, n)
    ensures Fresh(table[n := sector], n + 1, before)
    ensures Prefix(table[n := sector], n + 1) == Prefix(table, n) + {sector as int}
  {
    PrefixStore(table, n, n, sector);
    forall k | 0 <= k < n
      ensures table[k] != sector
    {
      PrefixHas(table, n, k);
    }
  }

  lemma StillMarked(table: seq<int32>, i: int)
    requires 0 <= i < |table|
    requires forall j :: 0 <= j < i ==> table[j] != table[i]
    ensures table[i] as int !in Prefix(table, i)
  {
    if table[i] as int in Prefix(table, i) {
      var j := PrefixMember(table, i, table[i] as int);
      assert false;
    }
  }

  /** A header whose table was filled from the clear bits is usable. */
  lemma FreshUsable(h: Header, before: set<int>)
    requires 0 <= h.numBytes <= MAX_FILE_SIZE
    requires h.numSectors == DivRoundUp(h.numBytes, SECTOR_SIZE)
    requires Fresh(h.dataSectors, h.numSectors, before)
    ensures Usable(h)
    ensures DataSet(h) == Prefix(h.dataSectors, h.numSectors)
    ensures DataSet(h) !! before && |DataSet(h)| == h.numSectors
  {
    FreshSize(h.dataSectors, h.numSectors, before);
  }

  class FileHeader {
    var numBytes: int32
    var numSectors: int32
    var dataSectors: SectorTable

    /** The fields hold whatever the memory held. */
    constructor () {
    }

    function Value(): Header
      reads this
    {
      Header(numBytes, numSectors, dataSectors)
    }

    method FetchFrom(disk: SynchDisk, sector: int)
      requires 0 <= sector < NUM_SECTORS
      modifies this
      ensures Value() == DecodeHeader(disk.image[sector])
    {
      var s := disk.ReadSector(sector);
      var h := DecodeHeader(s);
      numBytes, numSectors, dataSectors := h.numBytes, h.numSectors, h.dataSectors;
    }

    method WriteBack(disk: SynchDisk, sector: int)
      requires 0 <= sector < NUM_SECTORS
      modifies disk
      ensures disk.image == old(disk.image)[sector := EncodeHeader(Value())]
    {
      disk.WriteSector(sector, EncodeHeader(Value()));
    }

    /** Takes sectors for a file of `fileSize` bytes. It fails, taking none, exactly when too few
        are clear; otherwise the header becomes usable and exactly its sectors are newly marked. A file
        that has more sectors than the table has entries must fail: the code does not look. */
    method Allocate(freeMap: BitMap, fileSize: int32) returns (ok: bool)
      requires freeMap.Valid() && freeMap.numBits == NUM_SECTORS
      requires 0 <= fileSize
      requires fileSize <= MAX_FILE_SIZE
            || NUM_SECTORS - |freeMap.Contents()| < DivRoundUp(fileSize, SECTOR_SIZE)
      modifies this, freeMap.words
      ensures freeMap.Valid()
      ensures ok <==> NUM_SECTORS - |old(freeMap.Contents())| >= DivRoundUp(fileSize, SECTOR_SIZE)
      ensures !ok ==> freeMap.Contents() == old(freeMap.Contents())
      ensures ok ==> Usable(Value()) && numBytes == fileSize
      ensures ok ==> DataSet(Value()) !! old(freeMap.Contents())
      ensures ok ==> freeMap.Contents() == old(freeMap.Contents()) + DataSet(Value())
      ensures ok ==> |DataSet(Value())| == DivRoundUp(fileSize, SECTOR_SIZE)
      ensures ok ==> 0 <= numSectors <= NUM_DIRECT && Lowest(dataSectors, numSectors, old(freeMap.Contents()))
    {
      hide Prefix, Fresh, Usable, Marked, Lowest;
      numBytes := fileSize;
      numSectors := DivRoundUp(fileSize, SECTOR_SIZE);
      ghost var before := freeMap.Contents();
      var clear := freeMap.NumClear();
      if clear < numSectors {
        return false;
      }
      var i := 0;
      NoneFresh(dataSectors, before);
      while i < numSectors
        invariant 0 <= i <= numSectors == DivRoundUp(fileSize, SECTOR_SIZE) && numBytes == fileSize
        invariant freeMap.Valid()
        invariant Fresh(dataSectors, i, before) && Lowest(dataSectors, i, before)
        invariant freeMap.Contents() == before + Prefix(dataSectors, i)
      {
        TakeSector(freeMap, i, before);
        i := i + 1;
      }
      FreshUsable(Value(), before);
      return true;
    }

    /** One round of the loop: finds a clear bit for table entry `i`. */
    method TakeSector(freeMap: BitMap, i: int, ghost before: set<int>)
      requires freeMap.Valid() && freeMap.numBits == NUM_SECTORS
      requires 0 <= i < NUM_DIRECT && |before| + i < NUM_SECTORS
      requires Fresh(dataSectors, i, before) && Lowest(dataSectors, i, before)
      requires freeMap.Contents() == before + Prefix(dataSectors, i)
      modifies this`dataSectors, freeMap.words
      ensures freeMap.Valid()
      ensures Fresh(dataSectors, i + 1, before) && Lowest(dataSectors, i + 1, before)
      ensures freeMap.Contents() == before + Prefix(dataSectors, i + 1)
    {
      hide Prefix, Fresh, Marked, Lowest;
      FreshSize(dataSectors, i, before);
      SomeBitClear(NUM_SECTORS, before, Prefix(dataSectors, i));
      var sector := freeMap.Find();
      assert sector != -1;
      FreshExtend(dataSectors, i, before, sector);
      LowestExtend(dataSectors, i, before, sector);
      dataSectors := dataSectors[i := sector];
    }

    /** Gives the sectors of the file back; each of them is found marked. */
    method Deallocate(freeMap: BitMap)
      requires freeMap.Valid() && freeMap.numBits == NUM_SECTORS
      requires Usable(Value()) && DataSet(Value()) <= freeMap.Contents()
      modifies freeMap.words
      ensures freeMap.Valid() && freeMap.Contents() == old(freeMap.Contents()) - DataSet(Value())
    {
      var i := 0;
      while i < numSectors
        invariant 0 <= i <= numSectors && freeMap.Valid()
        invariant freeMap.Contents() == old(freeMap.Contents()) - Prefix(dataSectors, i)
      {
        PrefixHas(dataSectors, numSectors, i);
        StillMarked(dataSectors, i);
        var marked := freeMap.Test(dataSectors[i]);
        assert marked;
        freeMap.Clear(dataSectors[i]);
        i := i + 1;
      }
    }
  }
}
