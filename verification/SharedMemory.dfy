/** The ring of 1024 characters that the three parties of the drawing simulation share
    (SharedMemory.cpp). */
module SharedMemories {
  import opened Sectors

  const RING := 1024

  type Index = n: int | 0 <= n < RING

  type Buffer = s: seq<byte> | |s| == RING witness seq<byte>(RING, _ => 0)

  /** The cell `d` places behind another. */
  function Cell(from: Index, d: nat): Index {
    (from + d) % RING
  }

  lemma CellOfCell(from: Index, d: nat, e: nat)
    ensures Cell(Cell(from, d), e) == Cell(from, d + e)
  {
    var lap, rest := (from + d) / RING, (from + d) % RING;
    assert from + d + e == lap * RING + (rest + e);
    Laps(rest + e, lap);
  }

  lemma Laps(n: nat, laps: nat)
    ensures (laps * RING + n) % RING == n % RING
  {
  }

  lemma CellsApart(from: Index, d: nat, e: nat)
    requires d < e < d + RING
    ensures Cell(from, d) != Cell(from, e)
  {
  }

  /** One time round the ring leads back. */
  lemma CellLap(from: Index, d: nat)
    ensures Cell(from, d) == Cell(from, d % RING)
  {
    assert from + d == d / RING * RING + (from + d % RING);
    Laps(from + d % RING, d / RING);
  }

  lemma NextCell(from: Index, d: nat)
    ensures (Cell(from, d) + 1) % RING == Cell(from, d + 1)
  {
    CellOfCell(from, d, 1);
  }

  /** The characters from a cell on, before the first NUL. */
  ghost predicate StringAt(buffer: Buffer, from: Index, text: seq<byte>) {
    && |text| < RING
    && (forall d :: 0 <= d < |text| ==> text[d] != 0 && buffer[Cell(from, d)] == text[d])
    && buffer[Cell(from, |text|)] == 0
  }

  lemma EmptyCell(from: Index)
    ensures Cell(from, 0) == from
  {
  }

  /** Where character `i` + 1 goes: one place on, or the start of the next time round. */
  lemma LapPosition(i: nat)
    ensures (i + 1) % RING == if i % RING == RING - 1 then 0 else i % RING + 1
  {
  }

  /** What is `d` cells from the first when `n` characters have been written: a character of their last time
      round, one of the time before, or what was there at first. */
  function AfterWrites(was: Buffer, from: Index, value: CString, n: nat, d: nat): byte
    requires n <= |value| && d < RING
  {
    if d < n % RING then value[n - n % RING + d]
    else if n < RING then was[Cell(from, d)]
    else value[n - n % RING - RING + d]
  }

  lemma AfterOneMore(was: Buffer, from: Index, value: CString, n: nat, d: nat)
    requires n < |value| && d < RING
    ensures AfterWrites(was, from, value, n + 1, d) ==
            if d == n % RING then value[n] else AfterWrites(was, from, value, n, d)
  {
    LapPosition(n);
  }

  ghost predicate HoldsAfter(buffer: Buffer, was: Buffer, from: Index, value: CString, n: nat)
    requires n <= |value|
  {
    forall d :: 0 <= d < RING ==> buffer[Cell(from, d)] == AfterWrites(was, from, value, n, d)
  }

  lemma HoldsMore(buffer: Buffer, was: Buffer, from: Index, value: CString, n: nat)
    requires n < |value| && HoldsAfter(buffer, was, from, value, n)
    ensures HoldsAfter(buffer[Cell(from, n) := value[n]], was, from, value, n + 1)
  {
    hide Cell, AfterWrites;
    CellLap(from, n);
    forall d | 0 <= d < RING
      ensures buffer[Cell(from, n) := value[n]][Cell(from, d)] == AfterWrites(was, from, value, n + 1, d)
    {
      AfterOneMore(was, from, value, n, d);
      DistinctCells(from, d, n % RING);
    }
  }

  lemma DistinctCells(from: Index, d: nat, e: nat)
    requires d < RING && e < RING
    ensures Cell(from, d) == Cell(from, e) <==> d == e
  {
    if d < e { CellsApart(from, d, e); } else if e < d { CellsApart(from, e, d); }
  }

  lemma HoldsAtFirst(was: Buffer, from: Index, value: CString)
    ensures HoldsAfter(was, was, from, value, 0)
  {
    hide Cell;
  }

  lemma CellIs(from: Index, d: nat)
    ensures Cell(from, d) == (from + d) % RING
  {
  }

  /** The terminator comes behind the last time round. */
  lemma HoldsString(buffer: Buffer, was: Buffer, from: Index, value: CString)
    requires HoldsAfter(buffer, was, from, value, |value|)
    ensures var b, n := buffer[Cell(from, |value|) := 0], |value| % RING;
            && StringAt(b, from, value[|value| - n..])
            && forall d :: n < d < RING ==>
                 b[Cell(from, d)] == if |value| < RING then was[Cell(from, d)] else value[|value| - n - RING + d]
  {
    hide Cell;
    var n := |value| % RING;
    CellLap(from, |value|);
    forall d | 0 <= d < RING
      ensures Cell(from, d) == Cell(from, n) <==> d == n
    {
      DistinctCells(from, d, n);
    }
  }

  /** The part of a message of its last time round. */
  lemma LastLap(value: CString)
    ensures |value[|value| - |value| % RING..]| == |value| % RING
    ensures value[|value| - |value| % RING..] == value <==> |value| < RING
  {
  }

  lemma MeetAgain(from: Index, n: nat)
    ensures (from + n + 1) % RING == (from + n % RING + 1) % RING
  {
    assert from + n + 1 == n / RING * RING + (from + n % RING + 1);
    Laps(from + n % RING + 1, n / RING);
  }

  class SharedMemory {
    const buffer: array<byte>
    var writeIndex: Index
    var readIndex: Index

    ghost predicate Valid() {
      buffer.Length == RING
    }

    constructor ()
      ensures Valid() && fresh(buffer) && writeIndex == readIndex == 0
    {
      buffer := new byte[RING];
      writeIndex, readIndex := 0, 0;
    }

    /** Writes a string and its terminator. What stays of it in the ring is the part of its last time
        round: all of it when it is shorter than the ring, and then the other cells stay as they are. */
    method Write(value: CString)
      requires Valid()
      modifies buffer, this`writeIndex
      ensures StringAt(buffer[..], old(writeIndex), value[|value| - |value| % RING..])
      ensures forall d :: |value| % RING < d < RING ==>
                buffer[Cell(old(writeIndex), d)] ==
                if |value| < RING then old(buffer[..])[Cell(old(writeIndex), d)]
                else value[|value| - |value| % RING - RING + d]
      ensures writeIndex == (old(writeIndex) + |value| + 1) % RING
    {
      hide Cell, AfterWrites, StringAt, HoldsAfter;
      ghost var from, was: Buffer := writeIndex, buffer[..];
      var i := 0;
      EmptyCell(from);
      HoldsAtFirst(was, from, value);
      while i < |value|
        invariant 0 <= i <= |value| && writeIndex == Cell(from, i)
        invariant HoldsAfter(buffer[..], was, from, value, i)
      {
        NextCell(from, i);
        HoldsMore(buffer[..], was, from, value, i);
        buffer[writeIndex] := value[i];
        writeIndex := (writeIndex + 1) % RING;
        i := i + 1;
      }
      NextCell(from, i);
      HoldsString(buffer[..], was, from, value);
      buffer[writeIndex] := 0;
      writeIndex := (writeIndex + 1) % RING;
      CellIs(from, |value| + 1);
    }

    /** Reads the string at the read index and moves past its terminator. */
    method Read(ghost text: seq<byte>) returns (result: seq<byte>)
      requires Valid() && StringAt(buffer[..], readIndex, text)
      modifies this`readIndex
      ensures result == text && readIndex == (old(readIndex) + |text| + 1) % RING
    {
      hide Cell;
      ghost var from := readIndex;
      result := [];
      EmptyCell(from);
      while buffer[readIndex] != 0
        invariant |result| <= |text| && result == text[..|result|] && readIndex == Cell(from, |result|)
        decreases |text| - |result|
      {
        NextCell(from, |result|);
        result := result + [buffer[readIndex]];
        readIndex := (readIndex + 1) % RING;
      }
      NextCell(from, |result|);
      readIndex := (readIndex + 1) % RING;
      CellIs(from, |text| + 1);
    }

    /** A read after a write, with nothing else in the ring, returns what was written exactly when it is
        at most 1023 characters long; the indices meet again either way. */
    method WriteThenRead(value: CString) returns (result: seq<byte>)
      requires Valid() && writeIndex == readIndex
      modifies buffer, this
      ensures result == value <==> |value| < RING
      ensures result == value[|value| - |value| % RING..]
      ensures writeIndex == readIndex
    {
      hide Cell, StringAt;
      ghost var from := writeIndex;
      Write(value);
      ghost var rest := value[|value| - |value| % RING..];
      result := Read(rest);
      LastLap(value);
      MeetAgain(from, |value|);
    }
  }
}
