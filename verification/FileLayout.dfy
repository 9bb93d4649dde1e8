/** The value of a file header, its layout on disk, and the flat byte array that the sectors it
    names represent (filesys/filehdr.h, and FetchFrom, WriteBack and ByteToSector of
    filesys/filehdr.cc). */
module FileLayout {
  import opened Sectors
  import opened Encoding

  const NUM_DIRECT := (SECTOR_SIZE - 8) / 4
  const MAX_FILE_SIZE := NUM_DIRECT * SECTOR_SIZE

  type SectorTable = s: seq<int32> | |s| == NUM_DIRECT witness seq<int32>(NUM_DIRECT, _ => 0)

  /** The value of a header. Only the first `numSectors` entries of the table mean anything. */
  datatype Header = Header(numBytes: int32, numSectors: int32, dataSectors: SectorTable)

  /** A header a file can be read and written through. */
  ghost predicate Usable(h: Header) {
    && 0 <= h.numBytes <= MAX_FILE_SIZE
    && h.numSectors == DivRoundUp(h.numBytes, SECTOR_SIZE)
    && (forall i :: 0 <= i < h.numSectors ==> 0 <= h.dataSectors[i] < NUM_SECTORS)
    && (forall i, j :: 0 <= i < j < h.numSectors ==> h.dataSectors[i] != h.dataSectors[j])
  }

  /** The first `n` sectors of a table. */
  ghost function Prefix(table: seq<int32>, n: int): (r: set<int>)
    requires 0 <= n <= |table|
  {
    if n == 0 then {} else Prefix(table, n - 1) + {table[n - 1] as int}
  }

  lemma {:induction false} PrefixHas(table: seq<int32>, n: int, i: int)
    requires 0 <= i < n <= |table|
    ensures table[i] as int in Prefix(table, n)
  {
    if i < n - 1 { PrefixHas(table, n - 1, i); }
  }

  lemma {:induction false} PrefixMember(table: seq<int32>, n: int, x: int) returns (i: int)
    requires 0 <= n <= |table| && x in Prefix(table, n)
    ensures 0 <= i < n && table[i] as int == x
  {
    if table[n - 1] as int == x { i := n - 1; } else { i := PrefixMember(table, n - 1, x); }
  }

  /** A table without repetitions names as many sectors as it has entries. */
  lemma {:induction false} PrefixSize(table: seq<int32>, n: nat)
    requires n <= |table| && forall i, j :: 0 <= i < j < n ==> table[i] != table[j]
    ensures |Prefix(table, n)| == n
  {
    if n > 0 {
      PrefixSize(table, n - 1);
      if table[n - 1] as int in Prefix(table, n - 1) {
        var i := PrefixMember(table, n - 1, table[n - 1]);
        assert false;
      }
    }
  }

  /** The sectors that hold the bytes of a file. */
  ghost function DataSet(h: Header): set<int>
    requires 0 <= h.numSectors <= |h.dataSectors|
  {
    Prefix(h.dataSectors, h.numSectors)
  }

  /** The sector that holds the byte at an offset. */
  function ByteToSector(h: Header, offset: int): (sector: int32)
    requires 0 <= offset < MAX_FILE_SIZE
  {
    h.dataSectors[offset / SECTOR_SIZE]
  }

  /** Byte `k` of a file. */
  ghost function ByteAt(img: Image, h: Header, k: int): byte
    requires Usable(h) && 0 <= k < h.numBytes
  {
    img[ByteToSector(h, k)][k % SECTOR_SIZE]
  }

  /** The logical contents of a file: the flat byte array its sectors represent. */
  ghost function Bytes(img: Image, h: Header): (s: seq<byte>)
    requires Usable(h)
    ensures |s| == h.numBytes
  {
    seq(h.numBytes, k requires 0 <= k < h.numBytes => ByteAt(img, h, k))
  }

  /** Byte `k` of a file lies in the sector of its 128 bytes, in their order. */
  lemma FileBytes(img: Image, h: Header, k: nat)
    requires Usable(h) && k < h.numBytes
    ensures k / 128 < h.numSectors && Bytes(img, h)[k] == img[h.dataSectors[k / 128]][k % 128]
  {
  }

  /** A file's contents depend on nothing outside its own sectors. */
  lemma BytesFrame(img: Image, img': Image, h: Header)
    requires Usable(h)
    requires forall s :: 0 <= s < NUM_SECTORS && s in DataSet(h) ==> img'[s] == img[s]
    ensures Bytes(img', h) == Bytes(img, h)
  {
    forall k | 0 <= k < h.numBytes
      ensures Bytes(img', h)[k] == Bytes(img, h)[k]
    {
      PrefixHas(h.dataSectors, h.numSectors, k / SECTOR_SIZE);
    }
  }

  /** Word `w` of a header: the length, the number of sectors, then the table. */
  function FieldAt(h: Header, w: int): int32
    requires 0 <= w < NUM_DIRECT + 2
  {
    if w == 0 then h.numBytes else if w == 1 then h.numSectors else h.dataSectors[w - 2]
  }

  /** A header as the 32 words of one sector. */
  function EncodeHeader(h: Header): (s: Sector)
  {
    seq(SECTOR_SIZE, k requires 0 <= k < SECTOR_SIZE => ByteOf(ToUnsigned(FieldAt(h, k / 4)), k % 4))
  }

  function FieldFrom(s: Sector, w: int): int32
    requires 0 <= w < NUM_DIRECT + 2
  {
    ToSigned(WordAt(s, 4 * w))
  }

  /** A sector read as a header. */
  function DecodeHeader(s: Sector): (h: Header)
  {
    Header(FieldFrom(s, 0), FieldFrom(s, 1), seq(NUM_DIRECT, i requires 0 <= i < NUM_DIRECT => FieldFrom(s, i + 2)))
  }

  lemma FieldRoundTrip(h: Header, w: int)
    requires 0 <= w < NUM_DIRECT + 2
    ensures FieldFrom(EncodeHeader(h), w) == FieldAt(h, w)
  {
    hide ByteOf, WordAt;
    assert 4 * w / 4 == w && (4 * w + 1) / 4 == w && (4 * w + 2) / 4 == w && (4 * w + 3) / 4 == w;
    WordRoundTrip(ToUnsigned(FieldAt(h, w)), EncodeHeader(h), 4 * w);
  }

  /** The sector of a header holds the length, the number of sectors and the table, in this order, each as
      four bytes with the least significant first. */
  lemma HeaderBytes(h: Header, w: nat)
    requires w < NUM_DIRECT + 2
    ensures var s := EncodeHeader(h);
            var v := if w == 0 then h.numBytes else if w == 1 then h.numSectors else h.dataSectors[w - 2];
            s[4 * w] as int + 256 * s[4 * w + 1] as int + 65536 * s[4 * w + 2] as int + 16777216 * s[4 * w + 3] as int
            == if v < 0 then v + 0x1_0000_0000 else v
  {
    hide ByteOf;
    assert 4 * w / 4 == w && (4 * w + 1) / 4 == w && (4 * w + 2) / 4 == w && (4 * w + 3) / 4 == w;
    WordRoundTrip(ToUnsigned(FieldAt(h, w)), EncodeHeader(h), 4 * w);
  }

  /** Fetching a header gives back what was written, meaningless table entries included. */
  lemma HeaderRoundTrip(h: Header)
    ensures DecodeHeader(EncodeHeader(h)) == h
  {
    hide FieldFrom, EncodeHeader;
    FieldRoundTrip(h, 0);
    FieldRoundTrip(h, 1);
    var d := DecodeHeader(EncodeHeader(h)).dataSectors;
    forall i | 0 <= i < NUM_DIRECT
      ensures d[i] == h.dataSectors[i]
    {
      FieldRoundTrip(h, i + 2);
    }
  }
}
