/** The directory: a fixed table of names and header sectors (filesys/directory.cc). */
module Directories {
  import opened Sectors
  import opened Encoding
  import opened FileLayout
  import opened OpenFiles

  const FILE_NAME_MAX_LEN := 9
  const ENTRY_SIZE := 20

  /** One slot as it lies in memory: the flag, the header sector, the ten bytes of the name
      buffer, and the five bytes the compiler leaves between and after them. */
  datatype Entry = Entry(inUse: bool, sector: int32, name: NameBuffer, padding: Padding)

  type NameBuffer = s: seq<byte> | |s| == FILE_NAME_MAX_LEN + 1 witness seq<byte>(FILE_NAME_MAX_LEN + 1, _ => 0)

  type Padding = s: seq<byte> | |s| == 5 witness [0, 0, 0, 0, 0]

  type Table = seq<Entry>

  /** The part of a name that counts: at most its first nine characters. */
  function Key(name: CString): (k: CString)
    ensures |k| == Min(|name|, FILE_NAME_MAX_LEN)
  {
    name[..Min(|name|, FILE_NAME_MAX_LEN)]
  }

  /** The name a buffer holds: the bytes before the first NUL from position `k` on, within nine. */
  function BufferTail(buffer: NameBuffer, k: nat): (r: CString)
    requires k <= FILE_NAME_MAX_LEN
    decreases FILE_NAME_MAX_LEN - k
  {
    if k == FILE_NAME_MAX_LEN || buffer[k] == 0 then [] else [buffer[k]] + BufferTail(buffer, k + 1)
  }

  function BufferKey(buffer: NameBuffer): CString
  {
    BufferTail(buffer, 0)
  }

  /** Character `k` of a C string, its terminator included. */
  function CharAt(name: CString, k: nat): byte
    requires k <= |name|
  {
    if k < |name| then name[k] else 0
  }

  /** The name that counts is the whole name or its first nine characters. */
  lemma KeyIs(name: CString)
    ensures |name| <= 9 ==> Key(name) == name
    ensures |name| > 9 ==> Key(name) == name[..9]
  {
  }

  /** A buffer holds the characters before its first NUL, or all nine. */
  lemma {:induction false} BufferHolds(buffer: NameBuffer, k: nat)
    requires k <= FILE_NAME_MAX_LEN
    ensures var r := BufferTail(buffer, k);
            && k + |r| <= 9 && r == buffer[k..k + |r|] && 0 !in buffer[k..k + |r|]
            && (k + |r| < 9 ==> buffer[k + |r|] == 0)
    decreases FILE_NAME_MAX_LEN - k
  {
    if k < FILE_NAME_MAX_LEN && buffer[k] != 0 {
      BufferHolds(buffer, k + 1);
      var r := BufferTail(buffer, k + 1);
      assert buffer[k..k + 1 + |r|] == [buffer[k]] + buffer[k + 1..k + 1 + |r|];
    }
  }

  /** strncmp(buffer, name, 9) == 0: walks both until a difference, a common NUL or the limit. */
  method SameName(buffer: NameBuffer, name: CString) returns (same: bool)
    ensures same == (BufferKey(buffer) == Key(name))
  {
    var k := 0;
    while k < FILE_NAME_MAX_LEN
      invariant 0 <= k <= FILE_NAME_MAX_LEN && k <= |name|
      invariant (BufferKey(buffer) == Key(name)) == (BufferTail(buffer, k) == Key(name)[k..])
    {
      if buffer[k] != CharAt(name, k) {
        assert BufferTail(buffer, k) != Key(name)[k..] by { TailDiffers(buffer, name, k); }
        return false;
      }
      if buffer[k] == 0 {
        assert k == |name|;
        return true;
      }
      TailAgrees(buffer, name, k);
      k := k + 1;
    }
    return true;
  }

  lemma TailDiffers(buffer: NameBuffer, name: CString, k: nat)
    requires k < FILE_NAME_MAX_LEN && k <= |name|
    requires buffer[k] != CharAt(name, k)
    ensures BufferTail(buffer, k) != Key(name)[k..]
  {
    if k < |name| && buffer[k] != 0 {
      assert BufferTail(buffer, k)[0] == buffer[k] && Key(name)[k..][0] == name[k];
    } else if k < |name| {
      assert |Key(name)[k..]| > 0;
    } else {
      assert |BufferTail(buffer, k)| > 0;
    }
  }

  lemma TailAgrees(buffer: NameBuffer, name: CString, k: nat)
    requires k < FILE_NAME_MAX_LEN && k < |name|
    requires buffer[k] == name[k]
    ensures BufferTail(buffer, k) == Key(name)[k..] <==> BufferTail(buffer, k + 1) == Key(name)[k + 1..]
  {
    assert name[k] != 0;
    assert Key(name)[k..] == [name[k]] + Key(name)[k + 1..];
    assert BufferTail(buffer, k)[1..] == BufferTail(buffer, k + 1);
  }

  /** strncpy(buffer, name, 9): the name, then NULs up to nine; the tenth byte is not written. */
  function CopyName(buffer: NameBuffer, name: CString): NameBuffer
  {
    seq(FILE_NAME_MAX_LEN + 1, k requires 0 <= k < FILE_NAME_MAX_LEN + 1 =>
      if k == FILE_NAME_MAX_LEN then buffer[k] else if k < |name| then name[k] else 0)
  }

  lemma {:induction false} CopyNameTail(buffer: NameBuffer, name: CString, k: nat)
    requires k <= Min(|name|, FILE_NAME_MAX_LEN)
    ensures BufferTail(CopyName(buffer, name), k) == Key(name)[k..]
    decreases FILE_NAME_MAX_LEN - k
  {
    if k < Min(|name|, FILE_NAME_MAX_LEN) {
      assert name[k] != 0;
      CopyNameTail(buffer, name, k + 1);
      assert Key(name)[k..] == [name[k]] + Key(name)[k + 1..];
    }
  }

  /** A copied name fills the buffer up to nine with NULs, and leaves the tenth byte alone. */
  lemma CopiedBytes(buffer: NameBuffer, name: CString)
    ensures forall k :: 0 <= k < 9 ==> CopyName(buffer, name)[k] == if k < |name| then name[k] else 0
    ensures CopyName(buffer, name)[9] == buffer[9]
  {
  }

  /** A copied name reads back as its first nine characters. */
  lemma CopyNameKey(buffer: NameBuffer, name: CString)
    ensures BufferKey(CopyName(buffer, name)) == Key(name)
  {
    CopyNameTail(buffer, name, 0);
    assert Key(name)[0..] == Key(name);
  }

  /** Slot `i` is in use under the key `key`. */
  predicate Names(t: Table, i: int, key: CString)
    requires 0 <= i < |t|
  {
    t[i].inUse && BufferKey(t[i].name) == key
  }

  /** The first slot from `i` on in use under `key`, or -1. */
  function IndexFrom(t: Table, i: nat, key: CString): (r: int)
    requires i <= |t|
    ensures r == -1 || (i <= r < |t| && Names(t, r, key))
    ensures r == -1 ==> forall j :: i <= j < |t| ==> !Names(t, j, key)
    ensures r != -1 ==> forall j :: i <= j < r ==> !Names(t, j, key)
    decreases |t| - i
  {
    if i == |t| then -1 else if Names(t, i, key) then i else IndexFrom(t, i + 1, key)
  }

  function IndexOf(t: Table, key: CString): int
  {
    IndexFrom(t, 0, key)
  }

  /** Byte `k` of a slot in memory. */
  function EntryByte(e: Entry, k: int): byte
    requires 0 <= k < ENTRY_SIZE
  {
    if k == 0 then (if e.inUse then 1 else 0)
    else if k < 4 then e.padding[k - 1]
    else if k < 8 then ByteOf(ToUnsigned(e.sector), k - 4)
    else if k < 18 then e.name[k - 8]
    else e.padding[k - 15]
  }

  /** The memory image of the table. */
  function TableBytes(t: Table): (s: seq<byte>)
    ensures |s| == |t| * ENTRY_SIZE
  {
    seq(|t| * ENTRY_SIZE, k requires 0 <= k < |t| * ENTRY_SIZE => EntryByte(t[k / ENTRY_SIZE], k % ENTRY_SIZE))
  }

  function EntryFrom(s: seq<byte>, at: nat): (e: Entry)
    requires at + ENTRY_SIZE <= |s|
  {
    Entry(s[at] != 0, ToSigned(WordAt(s, at + 4)), s[at + 8..at + 18], s[at + 1..at + 4] + s[at + 18..at + 20])
  }

  /** The table a memory image holds. */
  function BytesToTable(s: seq<byte>): (t: Table)
    ensures |t| == |s| / ENTRY_SIZE
  {
    seq(|s| / ENTRY_SIZE, i requires 0 <= i < |s| / ENTRY_SIZE => EntryFrom(s, i * ENTRY_SIZE))
  }

  lemma EntryRoundTrip(s: seq<byte>, at: nat, e: Entry)
    requires at + ENTRY_SIZE <= |s|
    requires forall m :: at <= m < at + ENTRY_SIZE ==> s[m] == EntryByte(e, m - at)
    ensures EntryFrom(s, at) == e
  {
    hide WordAt, ByteOf;
    WordRoundTrip(ToUnsigned(e.sector), s, at + 4);
    assert s[at + 8..at + 18] == e.name;
    assert s[at + 1..at + 4] + s[at + 18..at + 20] == e.padding;
  }

  /** A slot takes twenty bytes: the flag, after three more the sector with its least significant byte
      first, the ten of the name, and two more. */
  lemma TableLayout(t: Table, i: nat)
    requires i < |t|
    ensures var (s, at) := (TableBytes(t), 20 * i);
            && at + 20 <= |s| && s[at] == (if t[i].inUse then 1 else 0)
            && s[at + 4] as int + 256 * s[at + 5] as int + 65536 * s[at + 6] as int + 16777216 * s[at + 7] as int
               == (if t[i].sector < 0 then t[i].sector + 0x1_0000_0000 else t[i].sector)
            && s[at + 8..at + 18] == t[i].name
            && s[at + 1..at + 4] + s[at + 18..at + 20] == t[i].padding
  {
    hide ByteOf, EntryByte;
    var s := TableBytes(t);
    forall m | i * ENTRY_SIZE <= m < i * ENTRY_SIZE + ENTRY_SIZE
      ensures s[m] == EntryByte(t[i], m - i * ENTRY_SIZE)
    {
      assert m / ENTRY_SIZE == i && m % ENTRY_SIZE == m - i * ENTRY_SIZE;
    }
    EntryLayout(s, i * ENTRY_SIZE, t[i]);
  }

  lemma EntryLayout(s: seq<byte>, at: nat, e: Entry)
    requires at + ENTRY_SIZE <= |s|
    requires forall m :: at <= m < at + ENTRY_SIZE ==> s[m] == EntryByte(e, m - at)
    ensures s[at] == (if e.inUse then 1 else 0)
    ensures s[at + 4] as int + 256 * s[at + 5] as int + 65536 * s[at + 6] as int + 16777216 * s[at + 7] as int
            == (if e.sector < 0 then e.sector + 0x1_0000_0000 else e.sector)
    ensures s[at + 8..at + 18] == e.name && s[at + 1..at + 4] + s[at + 18..at + 20] == e.padding
  {
    hide ByteOf;
    WordRoundTrip(ToUnsigned(e.sector), s, at + 4);
    assert s[at + 8..at + 18] == e.name;
    assert s[at + 1..at + 4] + s[at + 18..at + 20] == e.padding;
  }

  /** Fetching the table gives back what was written. */
  lemma TableRoundTrip(t: Table)
    ensures BytesToTable(TableBytes(t)) == t
  {
    hide EntryByte, EntryFrom;
    var s := TableBytes(t);
    forall i | 0 <= i < |t|
      ensures BytesToTable(s)[i] == t[i]
    {
      forall m | i * ENTRY_SIZE <= m < i * ENTRY_SIZE + ENTRY_SIZE
        ensures s[m] == EntryByte(t[i], m - i * ENTRY_SIZE)
      {
        assert m / ENTRY_SIZE == i && m % ENTRY_SIZE == m - i * ENTRY_SIZE;
      }
      EntryRoundTrip(s, i * ENTRY_SIZE, t[i]);
    }
  }

  class Directory {
    var tableSize: nat
    var table: array<Entry>

    predicate Valid()
      reads this
    {
      tableSize == table.Length
    }

    /** An empty directory: only the flags are set, the rest is whatever the memory held. */
    constructor (size: nat)
      ensures Valid() && fresh(table) && tableSize == size
      ensures forall i :: 0 <= i < size ==> !table[i].inUse
    {
      tableSize := size;
      table := new Entry[size];
      new;
      var i := 0;
      while i < tableSize
        invariant 0 <= i <= tableSize == size == table.Length && fresh(table)
        invariant forall j :: 0 <= j < i ==> !table[j].inUse
      {
        table[i] := table[i].(inUse := false);
        i := i + 1;
      }
    }

    method FetchFrom(file: OpenFile)
      requires Valid() && Usable(file.hdr)
      modifies table
      ensures Valid()
      ensures table[..] == BytesToTable(Splice(TableBytes(old(table[..])), 0,
                                               Slice(file.Contents(), tableSize * ENTRY_SIZE, 0)))
    {
      hide TableBytes, BytesToTable, Slice, Usable;
      var memory := new byte[tableSize * ENTRY_SIZE];
      Copy(TableBytes(table[..]), memory, 0);
      assert memory[..] == TableBytes(table[..]);
      var _ := file.ReadAt(memory, 0, tableSize * ENTRY_SIZE, 0);
      var fetched := BytesToTable(memory[..]);
      forall i | 0 <= i < tableSize {
        table[i] := fetched[i];
      }
      assert table[..] == fetched;
    }

    method WriteBack(file: OpenFile)
      requires Valid() && Usable(file.hdr)
      modifies file.disk
      ensures file.Contents() == Written(old(file.Contents()), TableBytes(table[..]), tableSize * ENTRY_SIZE, 0)
      ensures forall s :: 0 <= s < NUM_SECTORS && s !in DataSet(file.hdr) ==>
                file.disk.image[s] == old(file.disk.image)[s]
    {
      var _ := file.WriteAt(TableBytes(table[..]), tableSize * ENTRY_SIZE, 0);
    }

    method FindIndex(name: CString) returns (r: int)
      requires Valid()
      ensures r == IndexOf(table[..], Key(name))
      ensures -1 <= r < table.Length && forall j :: 0 <= j < (if r == -1 then table.Length else r) ==>
                !(table[j].inUse && BufferKey(table[j].name) == Key(name))
      ensures r != -1 ==> table[r].inUse && BufferKey(table[r].name) == Key(name)
    {
      var i := 0;
      while i < tableSize
        invariant 0 <= i <= tableSize
        invariant IndexOf(table[..], Key(name)) == IndexFrom(table[..], i, Key(name))
      {
        var same := SameName(table[i].name, name);
        if table[i].inUse && same {
          FirstNamed(table[..], i, Key(name));
          return i;
        }
        i := i + 1;
      }
      FirstNamed(table[..], -1, Key(name));
      return -1;
    }

    method Find(name: CString) returns (sector: int)
      requires Valid()
      ensures var i := IndexOf(table[..], Key(name)); sector == if i == -1 then -1 else table[i].sector
    {
      var i := FindIndex(name);
      if i != -1 {
        return table[i].sector;
      }
      return -1;
    }

    /** Puts a new name into the first free slot; fails, changing nothing, when the name is there
        already or every slot is in use. */
    method Add(name: CString, newSector: int32) returns (ok: bool)
      requires Valid()
      modifies table
      ensures Valid()
      ensures ok == (IndexOf(old(table[..]), Key(name)) == -1
                     && exists i :: 0 <= i < tableSize && !old(table[..])[i].inUse)
      ensures !ok ==> table[..] == old(table[..])
      ensures ok ==> exists i :: 0 <= i < tableSize && Added(old(table[..]), table[..], i, name, newSector)
      ensures ok ==> forall i :: 0 <= i < tableSize && table[..][i] != old(table[..])[i] ==>
                       forall j :: 0 <= j < i ==> old(table[..])[j].inUse
    {
      hide IndexOf, CopyName, BufferKey, Key;
      var found := FindIndex(name);
      if found != -1 {
        return false;
      }
      var i := 0;
      while i < tableSize
        invariant 0 <= i <= tableSize
        invariant table[..] == old(table[..])
        invariant forall j :: 0 <= j < i ==> table[j].inUse
      {
        if !table[i].inUse {
          table[i] := Entry(true, newSector, CopyName(table[i].name, name), table[i].padding);
          FirstTaken(old(table[..]), table[..], i, name, newSector);
          return true;
        }
        i := i + 1;
      }
      return false;
    }

    method Remove(name: CString) returns (ok: bool)
      requires Valid()
      modifies table
      ensures Valid()
      ensures var i := IndexOf(old(table[..]), Key(name));
              && ok == (i != -1)
              && (!ok ==> table[..] == old(table[..]))
              && (ok ==> table[..] == old(table[..])[i := old(table[..])[i].(inUse := false)])
    {
      var i := FindIndex(name);
      if i == -1 {
        return false;
      }
      table[i] := table[i].(inUse := false);
      return true;
    }
  }

  lemma FirstTaken(before: Table, after: Table, i: int, name: CString, newSector: int32)
    requires 0 <= i < |before| && !before[i].inUse && forall j :: 0 <= j < i ==> before[j].inUse
    requires after == before[i := Entry(true, newSector, CopyName(before[i].name, name), before[i].padding)]
    ensures Added(before, after, i, name, newSector)
    ensures forall k :: 0 <= k < |before| && after[k] != before[k] ==> forall j :: 0 <= j < k ==> before[j].inUse
  {
    hide CopyName;
  }

  lemma FirstNamed(t: Table, r: int, key: CString)
    requires r == IndexOf(t, key)
    ensures -1 <= r < |t|
    ensures forall j :: 0 <= j < (if r == -1 then |t| else r) ==> !(t[j].inUse && BufferKey(t[j].name) == key)
    ensures r != -1 ==> t[r].inUse && BufferKey(t[r].name) == key
  {
    hide BufferKey;
    assert r == -1 || Names(t, r, key);
    forall j | 0 <= j < (if r == -1 then |t| else r)
      ensures !(t[j].inUse && BufferKey(t[j].name) == key)
    {
      assert !Names(t, j, key);
    }
  }

  /** `after` is `before` with the unused slot `i` taken for `name`. */
  ghost predicate Added(before: Table, after: Table, i: int, name: CString, newSector: int32)
  {
    && 0 <= i < |before| && !before[i].inUse
    && after == before[i := Entry(true, newSector, CopyName(before[i].name, name), before[i].padding)]
  }
}
