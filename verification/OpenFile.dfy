/** Byte-granular reading and writing of an open file over whole sectors (filesys/openfile.cc). */
module OpenFiles {
  import opened Sectors
  import opened FileLayout

  /** How many bytes a request for `numBytes` at `position` transfers. */
  function Transferred(fileLength: int, numBytes: int, position: int): int {
    if numBytes <= 0 || position >= fileLength then 0
    else if position + numBytes > fileLength then fileLength - position
    else numBytes
  }

  /** The slice of a file a read request delivers. */
  function Slice(contents: seq<byte>, numBytes: int, position: nat): (r: seq<byte>)
    ensures |r| == Transferred(|contents|, numBytes, position)
    ensures forall j :: 0 <= j < |r| ==> r[j] == contents[position + j]
  {
    var n := Transferred(|contents|, numBytes, position);
    if n == 0 then [] else contents[position..position + n]
  }

  /** `contents` with the bytes from `position` on replaced by `data`. */
  function Splice(contents: seq<byte>, position: nat, data: seq<byte>): (r: seq<byte>)
    requires position + |data| <= |contents|
    ensures |r| == |contents|
    ensures forall k :: 0 <= k < |r| ==>
      r[k] == if position <= k < position + |data| then data[k - position] else contents[k]
  {
    seq(|contents|, k requires 0 <= k < |contents| =>
      if position <= k < position + |data| then data[k - position] else contents[k])
  }

  lemma SliceNothing(contents: seq<byte>, numBytes: int, position: nat)
    requires Transferred(|contents|, numBytes, position) == 0
    ensures Slice(contents, numBytes, position) == []
  {
  }

  lemma SpliceNothing(contents: seq<byte>, position: nat)
    requires position <= |contents|
    ensures Splice(contents, position, []) == contents
  {
  }

  /** A file after a write request: the transferred prefix of `from` spliced in. */
  function Written(contents: seq<byte>, from: seq<byte>, numBytes: int, position: nat): (r: seq<byte>)
    requires Transferred(|contents|, numBytes, position) <= |from|
    ensures |r| == |contents|
  {
    var n := Transferred(|contents|, numBytes, position);
    if n == 0 then contents else Splice(contents, position, from[..n])
  }

  /** A request past the end or for nothing transfers nothing, and one that reaches past the end what is
      left before it. */
  lemma TransferredCount(fileLength: nat, numBytes: int, position: nat)
    ensures Transferred(fileLength, numBytes, position) ==
            if numBytes <= 0 || position >= fileLength then 0
            else if numBytes <= fileLength - position then numBytes else fileLength - position
  {
  }

  /** A write stores the first bytes of the caller's buffer, as many as it transfers, and no others. */
  lemma WrittenBytes(contents: seq<byte>, from: seq<byte>, numBytes: int, position: nat)
    requires Transferred(|contents|, numBytes, position) <= |from|
    ensures var n := Transferred(|contents|, numBytes, position);
            && (forall k :: position <= k < position + n ==>
                  k < |contents| && Written(contents, from, numBytes, position)[k] == from[k - position])
            && (forall k :: 0 <= k < |contents| && !(position <= k < position + n) ==>
                  Written(contents, from, numBytes, position)[k] == contents[k])
  {
    hide Splice;
    var n := Transferred(|contents|, numBytes, position);
    if n > 0 {
      var r := Splice(contents, position, from[..n]);
      forall k | 0 <= k < |contents|
        ensures r[k] == if position <= k < position + n then from[k - position] else contents[k]
      {
      }
    }
  }

  /** A read delivers the bytes from its position on, as many as it transfers. */
  lemma SliceBytes(contents: seq<byte>, numBytes: int, position: nat)
    ensures var n := Transferred(|contents|, numBytes, position);
            |Slice(contents, numBytes, position)| == n
            && forall k :: position <= k < position + n ==>
                 k < |contents| && Slice(contents, numBytes, position)[k - position] == contents[k]
  {
  }

  /** A request cut at the end of the file reads the same. */
  lemma SliceCut(contents: seq<byte>, numBytes: int, cut: int, position: nat)
    requires 0 < numBytes && position < |contents|
    requires cut == if position + numBytes > |contents| then |contents| - position else numBytes
    ensures Slice(contents, cut, position) == Slice(contents, numBytes, position)
    ensures Transferred(|contents|, numBytes, position) == cut > 0 && position + cut <= |contents|
  {
  }

  /** What a read leaves in the caller's buffer. */
  lemma ReadBytes(buffer: seq<byte>, at: nat, contents: seq<byte>, numBytes: int, position: nat)
    requires at + Transferred(|contents|, numBytes, position) <= |buffer|
    ensures var n := Transferred(|contents|, numBytes, position);
            var r := Splice(buffer, at, Slice(contents, numBytes, position));
            && (forall k :: at <= k < at + n ==>
                  position + (k - at) < |contents| && r[k] == contents[position + (k - at)])
            && (forall k :: 0 <= k < |buffer| && !(at <= k < at + n) ==> r[k] == buffer[k])
  {
    hide Splice;
    SliceBytes(contents, numBytes, position);
    var data := Slice(contents, numBytes, position);
    var r := Splice(buffer, at, data);
    forall k | 0 <= k < |buffer| && at <= k < at + |data|
      ensures position + (k - at) < |contents| && r[k] == contents[position + (k - at)]
    {
      assert r[k] == data[k - at] == data[position + (k - at) - position];
    }
  }

  /** The C library's bcopy into part of a buffer. */
  method Copy(src: seq<byte>, dst: array<byte>, at: nat)
    requires at + |src| <= dst.Length
    modifies dst
    ensures dst[..] == Splice(old(dst[..]), at, src)
  {
    forall k | 0 <= k < |src| {
      dst[at + k] := src[k];
    }
  }

  /** The sector buffer `buf` holds the sectors `first`, ..., `next - 1` of the file. */
  ghost predicate Holds(buf: seq<byte>, img: Image, h: Header, first: int, next: int)
    requires Usable(h) && 0 <= first <= next <= h.numSectors && (next - first) * SECTOR_SIZE <= |buf|
  {
    forall i, j {:trigger img[h.dataSectors[i]][j]} :: first <= i < next && 0 <= j < SECTOR_SIZE ==>
      buf[(i - first) * SECTOR_SIZE + j] == img[h.dataSectors[i]][j]
  }

  /** What the sector buffer says about single bytes of the file. */
  lemma HoldsByte(buf: seq<byte>, img: Image, h: Header, first: int, next: int, k: int)
    requires Usable(h) && 0 <= first <= next <= h.numSectors && (next - first) * SECTOR_SIZE <= |buf|
    requires Holds(buf, img, h, first, next)
    requires first * SECTOR_SIZE <= k < next * SECTOR_SIZE && k < h.numBytes
    ensures buf[k - first * SECTOR_SIZE] == Bytes(img, h)[k]
  {
    var i, j := k / SECTOR_SIZE, k % SECTOR_SIZE;
    assert img[h.dataSectors[i]][j] == buf[(i - first) * SECTOR_SIZE + j];
  }

  lemma HoldsSlice(buf: seq<byte>, img: Image, h: Header, first: int, next: int, numBytes: int, position: nat)
    requires Usable(h) && 0 <= first <= next <= h.numSectors && (next - first) * SECTOR_SIZE <= |buf|
    requires Holds(buf, img, h, first, next)
    requires first * SECTOR_SIZE <= position
    requires position + Transferred(h.numBytes, numBytes, position) <= next * SECTOR_SIZE
    ensures var from, n := position - first * SECTOR_SIZE, Transferred(h.numBytes, numBytes, position);
            buf[from..from + n] == Slice(Bytes(img, h), numBytes, position)
  {
    hide Slice;
    var from, n := position - first * SECTOR_SIZE, Transferred(h.numBytes, numBytes, position);
    var a, b := buf[from..from + n], Slice(Bytes(img, h), numBytes, position);
    forall k | 0 <= k < n
      ensures a[k] == b[k]
    {
      HoldsByte(buf, img, h, first, next, position + k);
    }
  }

  /** Sectors `first` to `last` are the ones the bytes [position, position + n) lie in. */
  ghost predicate Spans(first: int, last: int, position: int, n: int) {
    && 0 <= first * SECTOR_SIZE <= position < (first + 1) * SECTOR_SIZE
    && last * SECTOR_SIZE < position + n <= (last + 1) * SECTOR_SIZE
    && first <= last
  }

  /** The sector numbers both requests compute are the ones their bytes lie in. */
  lemma RequestSpans(h: Header, position: nat, n: nat)
    requires Usable(h) && n > 0 && position + n <= h.numBytes
    ensures var first, last := DivRoundDown(position, SECTOR_SIZE), DivRoundDown(position + n - 1, SECTOR_SIZE);
            Spans(first, last, position, n) && last < h.numSectors
  {
  }

  /** The buffer of a write after the sectors that will be modified only in part are read in. */
  ghost function PartialsRead(buf: seq<byte>, contents: seq<byte>, position: nat, n: nat,
                              first: int, last: int): (r: seq<byte>)
    requires n > 0 && position + n <= |contents| && Spans(first, last, position, n)
    requires |buf| == (1 + last - first) * SECTOR_SIZE
    ensures |r| == |buf|
  {
    var firstAligned := position == first * SECTOR_SIZE;
    var lastAligned := position + n == (last + 1) * SECTOR_SIZE;
    var b1 := if !firstAligned then Splice(buf, 0, Slice(contents, SECTOR_SIZE, first * SECTOR_SIZE)) else buf;
    if !lastAligned && (first != last || firstAligned)
    then Splice(b1, (last - first) * SECTOR_SIZE, Slice(contents, SECTOR_SIZE, last * SECTOR_SIZE))
    else b1
  }

  /** Every byte of those sectors that the write leaves alone has been read in. */
  lemma PartialsReadByte(buf: seq<byte>, contents: seq<byte>, position: nat, n: nat, first: int, last: int, k: int)
    requires n > 0 && position + n <= |contents| && Spans(first, last, position, n)
    requires |buf| == (1 + last - first) * SECTOR_SIZE
    requires (first * SECTOR_SIZE <= k < position) || (position + n <= k < (last + 1) * SECTOR_SIZE && k < |contents|)
    ensures PartialsRead(buf, contents, position, n, first, last)[k - first * SECTOR_SIZE] == contents[k]
  {
    hide Splice, Slice;
    if k < position {
      assert k - first * SECTOR_SIZE < |Slice(contents, SECTOR_SIZE, first * SECTOR_SIZE)|;
    } else {
      assert k - last * SECTOR_SIZE < |Slice(contents, SECTOR_SIZE, last * SECTOR_SIZE)|;
    }
  }

  /** The buffer that WriteAt writes back, built from uninitialised memory: the partial first and
      last sectors are read in, then the new bytes are copied over. */
  ghost function MergedBuffer(buf: seq<byte>, contents: seq<byte>, from: seq<byte>, position: nat,
                              first: int, last: int): (r: seq<byte>)
    requires from != [] && position + |from| <= |contents| && Spans(first, last, position, |from|)
    requires |buf| == (1 + last - first) * SECTOR_SIZE
    ensures |r| == |buf|
  {
    Splice(PartialsRead(buf, contents, position, |from|, first, last), position - first * SECTOR_SIZE, from)
  }

  /** Whatever the alignment of the two ends, the merged buffer agrees with the updated file on
      every byte of the file that its sectors hold. */
  lemma MergedBufferIsFile(buf: seq<byte>, contents: seq<byte>, from: seq<byte>, position: nat,
                           first: int, last: int, k: int)
    requires from != [] && position + |from| <= |contents| && Spans(first, last, position, |from|)
    requires |buf| == (1 + last - first) * SECTOR_SIZE
    requires first * SECTOR_SIZE <= k < (last + 1) * SECTOR_SIZE && k < |contents|
    ensures MergedBuffer(buf, contents, from, position, first, last)[k - first * SECTOR_SIZE]
         == Splice(contents, position, from)[k]
  {
    if !(position <= k < position + |from|) {
      PartialsReadByte(buf, contents, position, |from|, first, last, k);
    }
  }

  /** Writing back the sectors of a buffer that agrees with `after` turns the file into `after`. */
  lemma WrittenBack(buf: seq<byte>, img: Image, img': Image, h: Header, first: int, next: int, after: seq<byte>)
    requires Usable(h) && 0 <= first <= next <= h.numSectors && |buf| == (next - first) * SECTOR_SIZE
    requires |after| == h.numBytes
    requires forall k :: first * SECTOR_SIZE <= k < next * SECTOR_SIZE && k < h.numBytes ==>
               buf[k - first * SECTOR_SIZE] == after[k]
    requires forall k :: 0 <= k < h.numBytes && !(first * SECTOR_SIZE <= k < next * SECTOR_SIZE) ==>
               Bytes(img, h)[k] == after[k]
    requires Holds(buf, img', h, first, next)
    requires forall i :: 0 <= i < h.numSectors && !(first <= i < next) ==>
               img'[h.dataSectors[i]] == img[h.dataSectors[i]]
    ensures Bytes(img', h) == after
  {
    forall k | 0 <= k < h.numBytes
      ensures Bytes(img', h)[k] == after[k]
    {
      if first * SECTOR_SIZE <= k < next * SECTOR_SIZE {
        HoldsByte(buf, img', h, first, next, k);
      } else {
        assert Bytes(img, h)[k] == after[k];
      }
    }
  }

  class OpenFile {
    const disk: SynchDisk
    const hdr: Header
    var seekPosition: int

    /** Opens the file whose header lies in sector `sector`. */
    constructor (disk: SynchDisk, sector: int)
      requires 0 <= sector < NUM_SECTORS
      ensures this.disk == disk && hdr == DecodeHeader(disk.image[sector]) && seekPosition == 0
    {
      this.disk := disk;
      var s := disk.ReadSector(sector);
      hdr := DecodeHeader(s);
      seekPosition := 0;
    }

    /** The logical contents of the file on the disk as it is now. */
    ghost function Contents(): (s: seq<byte>)
      requires Usable(hdr)
      reads disk
      ensures |s| == hdr.numBytes
    {
      Bytes(disk.image, hdr)
    }

    /** Delivers exactly the requested slice of the file. */
    method ReadAt(into: array<byte>, at: nat, numBytes0: int, position: nat) returns (n: int)
      requires Usable(hdr)
      requires at + Transferred(hdr.numBytes, numBytes0, position) <= into.Length
      modifies into
      ensures n == if numBytes0 <= 0 || position >= hdr.numBytes then 0
                   else if numBytes0 <= hdr.numBytes - position then numBytes0 else hdr.numBytes - position
      ensures into[..] == Splice(old(into[..]), at, Slice(Contents(), numBytes0, position))
      ensures forall k :: at <= k < at + n ==> into[k] == Contents()[position + (k - at)]
      ensures forall k :: 0 <= k < into.Length && !(at <= k < at + n) ==> into[k] == old(into[k])
    {
      hide Splice, Slice, Usable, Bytes, Transferred;
      TransferredCount(|Contents()|, numBytes0, position);
      ReadBytes(into[..], at, Contents(), numBytes0, position);
      var numBytes := numBytes0;
      if numBytes <= 0 || position >= hdr.numBytes {
        SliceNothing(Contents(), numBytes, position);
        SpliceNothing(into[..], at);
        return 0;
      }
      if position + numBytes > hdr.numBytes {
        numBytes := hdr.numBytes - position;
      }
      SliceCut(Contents(), numBytes0, numBytes, position);
      Deliver(into, at, numBytes, position);
      return numBytes;
    }

    /** The part of ReadAt past the checks: reads the sectors the bytes lie in, and copies those asked for. */
    method Deliver(into: array<byte>, at: nat, numBytes: int, position: nat)
      requires Usable(hdr) && numBytes > 0 && position + numBytes <= hdr.numBytes && at + numBytes <= into.Length
      modifies into
      ensures into[..] == Splice(old(into[..]), at, Slice(Contents(), numBytes, position))
    {
      hide Splice, Slice, Usable, Holds, Bytes;
      var firstSector := DivRoundDown(position, SECTOR_SIZE);
      var lastSector := DivRoundDown(position + numBytes - 1, SECTOR_SIZE);
      RequestSpans(hdr, position, numBytes);
      var buf := new byte[(1 + lastSector - firstSector) * SECTOR_SIZE];
      ReadSectors(buf, firstSector, lastSector);
      var from := position - firstSector * SECTOR_SIZE;
      HoldsSlice(buf[..], disk.image, hdr, firstSector, lastSector + 1, numBytes, position);
      Copy(buf[..][from..from + numBytes], into, at);
    }

    /** Reads the sectors `first`, ..., `last` of the file into a buffer. */
    method ReadSectors(buf: array<byte>, first: int, last: int)
      requires Usable(hdr) && 0 <= first <= last < hdr.numSectors
      requires buf.Length == (1 + last - first) * SECTOR_SIZE
      modifies buf
      ensures Holds(buf[..], disk.image, hdr, first, last + 1)
    {
      var i := first;
      while i <= last
        invariant first <= i <= last + 1
        invariant Holds(buf[..], disk.image, hdr, first, i)
      {
        var data := disk.ReadSector(ByteToSector(hdr, i * SECTOR_SIZE));
        Copy(data, buf, (i - first) * SECTOR_SIZE);
        i := i + 1;
      }
    }

    /** Fills the buffer of a write: partial sectors from the disk first, then the new bytes. */
    method MergeInto(buf: array<byte>, from: seq<byte>, position: nat, firstSector: int, lastSector: int)
      requires Usable(hdr) && from != [] && position + |from| <= hdr.numBytes
      requires Spans(firstSector, lastSector, position, |from|)
      requires buf.Length == (1 + lastSector - firstSector) * SECTOR_SIZE
      modifies buf
      ensures buf[..] == MergedBuffer(old(buf[..]), Contents(), from, position, firstSector, lastSector)
    {
      hide Splice, Slice, Usable;
      var firstAligned := position == firstSector * SECTOR_SIZE;
      var lastAligned := position + |from| == (lastSector + 1) * SECTOR_SIZE;
      ghost var b0, contents := buf[..], Contents();
      if !firstAligned {
        var _ := ReadAt(buf, 0, SECTOR_SIZE, firstSector * SECTOR_SIZE);
      }
      ghost var b1 := buf[..];
      assert b1 == if !firstAligned then Splice(b0, 0, Slice(contents, SECTOR_SIZE, firstSector * SECTOR_SIZE)) else b0;
      if !lastAligned && (firstSector != lastSector || firstAligned) {
        var _ := ReadAt(buf, (lastSector - firstSector) * SECTOR_SIZE, SECTOR_SIZE, lastSector * SECTOR_SIZE);
      }
      assert buf[..] == PartialsRead(b0, contents, position, |from|, firstSector, lastSector);
      Copy(from, buf, position - firstSector * SECTOR_SIZE);
    }

    /** Writes the sectors `first`, ..., `last` of the file back from a buffer. */
    method WriteSectors(buf: array<byte>, first: int, last: int)
      requires Usable(hdr) && 0 <= first <= last < hdr.numSectors
      requires buf.Length == (1 + last - first) * SECTOR_SIZE
      modifies disk
      ensures Holds(buf[..], disk.image, hdr, first, last + 1)
      ensures forall s :: 0 <= s < NUM_SECTORS && (forall j :: first <= j <= last ==> hdr.dataSectors[j] != s) ==>
                disk.image[s] == old(disk.image)[s]
    {
      var i := first;
      while i <= last
        invariant first <= i <= last + 1
        invariant Holds(buf[..], disk.image, hdr, first, i)
        invariant forall s :: 0 <= s < NUM_SECTORS && (forall j :: first <= j < i ==> hdr.dataSectors[j] != s) ==>
                    disk.image[s] == old(disk.image)[s]
      {
        var at := (i - first) * SECTOR_SIZE;
        disk.WriteSector(ByteToSector(hdr, i * SECTOR_SIZE), buf[at..at + SECTOR_SIZE]);
        i := i + 1;
      }
    }

    /** Replaces exactly the requested bytes of the file, for every alignment of the two ends, and
        touches no sector outside the file. */
    method WriteAt(from: seq<byte>, numBytes0: int, position: nat) returns (n: int)
      requires Usable(hdr)
      requires Transferred(hdr.numBytes, numBytes0, position) <= |from|
      modifies disk
      ensures n == if numBytes0 <= 0 || position >= hdr.numBytes then 0
                   else if numBytes0 <= hdr.numBytes - position then numBytes0 else hdr.numBytes - position
      ensures Contents() == Written(old(Contents()), from, numBytes0, position)
      ensures forall k :: position <= k < position + n ==> Contents()[k] == from[k - position]
      ensures forall k :: 0 <= k < hdr.numBytes && !(position <= k < position + n) ==>
                Contents()[k] == old(Contents())[k]
      ensures forall s :: 0 <= s < NUM_SECTORS && s !in DataSet(hdr) ==> disk.image[s] == old(disk.image)[s]
    {
      hide Splice, Slice, Bytes, DataSet;
      TransferredCount(|Contents()|, numBytes0, position);
      WrittenBytes(Contents(), from, numBytes0, position);
      var numBytes := numBytes0;
      if numBytes <= 0 || position >= hdr.numBytes {
        return 0;
      }
      if position + numBytes > hdr.numBytes {
        numBytes := hdr.numBytes - position;
      }
      var firstSector := DivRoundDown(position, SECTOR_SIZE);
      var lastSector := DivRoundDown(position + numBytes - 1, SECTOR_SIZE);
      var numSectors := 1 + lastSector - firstSector;
      RequestSpans(hdr, position, numBytes);
      var buf := new byte[numSectors * SECTOR_SIZE];
      ghost var scratch := buf[..];
      MergeInto(buf, from[..numBytes], position, firstSector, lastSector);
      WriteSectors(buf, firstSector, lastSector);
      MergedWriteBack(scratch, old(disk.image), disk.image, hdr, from[..numBytes], position, firstSector, lastSector);
      return numBytes;
    }

    method Seek(position: int)
      modifies this`seekPosition
      ensures seekPosition == position
    {
      seekPosition := position;
    }

    /** Reading from the seek position advances it past the bytes delivered. */
    method Read(into: array<byte>, numBytes: int) returns (n: int)
      requires Usable(hdr) && seekPosition >= 0
      requires Transferred(hdr.numBytes, numBytes, seekPosition) <= into.Length
      modifies into, this`seekPosition
      ensures n == if numBytes <= 0 || old(seekPosition) >= hdr.numBytes then 0
                   else if numBytes <= hdr.numBytes - old(seekPosition) then numBytes
                   else hdr.numBytes - old(seekPosition)
      ensures into[..] == Splice(old(into[..]), 0, Slice(Contents(), numBytes, old(seekPosition)))
      ensures forall k :: 0 <= k < n ==> into[k] == Contents()[old(seekPosition) + k]
      ensures forall k :: n <= k < into.Length ==> into[k] == old(into[k])
      ensures seekPosition == old(seekPosition) + n
    {
      n := ReadAt(into, 0, numBytes, seekPosition);
      seekPosition := seekPosition + n;
    }

    /** Writing at the seek position advances it past the bytes accepted. */
    method Write(from: seq<byte>, numBytes: int) returns (n: int)
      requires Usable(hdr) && seekPosition >= 0
      requires Transferred(hdr.numBytes, numBytes, seekPosition) <= |from|
      modifies disk, this`seekPosition
      ensures n == if numBytes <= 0 || old(seekPosition) >= hdr.numBytes then 0
                   else if numBytes <= hdr.numBytes - old(seekPosition) then numBytes
                   else hdr.numBytes - old(seekPosition)
      ensures Contents() == Written(old(Contents()), from, numBytes, old(seekPosition))
      ensures forall k :: old(seekPosition) <= k < old(seekPosition) + n ==>
                Contents()[k] == from[k - old(seekPosition)]
      ensures forall k :: 0 <= k < hdr.numBytes && !(old(seekPosition) <= k < old(seekPosition) + n) ==>
                Contents()[k] == old(Contents())[k]
      ensures forall s :: 0 <= s < NUM_SECTORS && s !in DataSet(hdr) ==> disk.image[s] == old(disk.image)[s]
      ensures seekPosition == old(seekPosition) + n
    {
      n := WriteAt(from, numBytes, seekPosition);
      seekPosition := seekPosition + n;
    }
  }

  lemma MergedWriteBack(scratch: seq<byte>, img: Image, img': Image, h: Header, from: seq<byte>, position: nat,
                        first: int, last: int)
    requires Usable(h) && from != [] && position + |from| <= h.numBytes && Spans(first, last, position, |from|)
    requires |scratch| == (1 + last - first) * SECTOR_SIZE
    requires Holds(MergedBuffer(scratch, Bytes(img, h), from, position, first, last), img', h, first, last + 1)
    requires forall s :: 0 <= s < NUM_SECTORS && (forall j :: first <= j <= last ==> h.dataSectors[j] != s) ==>
               img'[s] == img[s]
    ensures Bytes(img', h) == Splice(Bytes(img, h), position, from)
    ensures forall s :: 0 <= s < NUM_SECTORS && s !in DataSet(h) ==> img'[s] == img[s]
  {
    var contents := Bytes(img, h);
    var buf, after := MergedBuffer(scratch, contents, from, position, first, last), Splice(contents, position, from);
    forall k | first * SECTOR_SIZE <= k < (last + 1) * SECTOR_SIZE && k < h.numBytes
      ensures buf[k - first * SECTOR_SIZE] == after[k]
    {
      MergedBufferIsFile(scratch, contents, from, position, first, last, k);
    }
    WrittenBack(buf, img, img', h, first, last + 1, after);
    forall s | 0 <= s < NUM_SECTORS && s !in DataSet(h)
      ensures img'[s] == img[s]
    {
      forall j | first <= j <= last
        ensures h.dataSectors[j] != s
      {
        PrefixHas(h.dataSectors, h.numSectors, j);
      }
    }
  }
}
