/** Bytes, sectors and the sector-addressed disk the file system is built on
    (machine/disk.h, and the sequential view of filesys/synchdisk.cc).
 */
module Sectors {

  type byte = b: int | 0 <= b < 256

  /** A C string without its terminator. */
  type CString = s: seq<byte> | 0 !in s

  const SECTOR_SIZE := 128
  const NUM_SECTORS := 1024

  type SectorNumber = n: int | 0 <= n < NUM_SECTORS

  type Sector = s: seq<byte> | |s| == SECTOR_SIZE witness seq<byte>(SECTOR_SIZE, _ => 0)

  const ZERO_SECTOR: Sector := seq(SECTOR_SIZE, _ => 0)

  /** The whole contents of the disk. */
  type Image = d: seq<Sector> | |d| == NUM_SECTORS witness seq<Sector>(NUM_SECTORS, _ => ZERO_SECTOR)

  function DivRoundDown(n: int, s: int): int
    requires n >= 0 && s > 0
  {
    n / s
  }

  function DivRoundUp(n: int, s: int): int
    requires n >= 0 && s > 0
  {
    n / s + (if n % s > 0 then 1 else 0)
  }

  /** Rounding down and up to whole multiples. */
  lemma Rounded(n: nat, s: nat)
    requires s > 0
    ensures DivRoundDown(n, s) * s <= n < (DivRoundDown(n, s) + 1) * s
    ensures (DivRoundUp(n, s) - 1) * s < n <= DivRoundUp(n, s) * s
  {
    var q, r := n / s, n % s;
    assert n == q * s + r;
    assert (q + 1) * s == q * s + s && (q - 1) * s == q * s - s;
  }

  function Min(a: int, b: int): (m: int)
    ensures m <= a && m <= b && (m == a || m == b)
  {
    if a < b then a else b
  }

  /** The disk as one thread at a time sees it: a request returns when it has been served. */
  class SynchDisk {
    var image: Image

    constructor (contents: Image)
      ensures image == contents
    {
      image := contents;
    }

    method ReadSector(sectorNumber: int) returns (data: Sector)
      requires 0 <= sectorNumber < NUM_SECTORS
      ensures data == image[sectorNumber]
    {
      data := image[sectorNumber];
    }

    method WriteSector(sectorNumber: int, data: Sector)
      requires 0 <= sectorNumber < NUM_SECTORS
      modifies this
      ensures image == old(image)[sectorNumber := data]
    {
      image := image[sectorNumber := data];
    }
  }
}
