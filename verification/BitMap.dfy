/** A bitmap packed into 32-bit words (userprog/bitmap.cc): the free map of the disk, and of the
    frames of main memory. */
module BitMaps {
  import opened Sectors
  import opened Encoding
  import opened FiniteSets
  import opened OpenFiles
  import opened FileLayout

  const BITS_IN_WORD := 32

  /** The word with only bit `i` set: 1 shifted left `i` times. */
  function Bit(i: nat): bv32
    requires i < BITS_IN_WORD
  {
    if i == 0 then 1 else Bit(i - 1) << 1
  }

  /** The tests and updates the source applies to a word with a one-bit mask. */
  function Common(w: bv32, mask: bv32): bv32 { w & mask }
  predicate Meets(w: bv32, mask: bv32) { Common(w, mask) != 0 }
  function With(w: bv32, mask: bv32): bv32 { w | mask }
  function Without(w: bv32, mask: bv32): bv32 { w & !mask }

  /** Bit 0 is the least significant, and each bit is worth twice the one before. */
  lemma BitsDouble(i: nat)
    requires i < BITS_IN_WORD
    ensures Bit(0) == 1 && (i > 0 ==> Bit(i) == Bit(i - 1) + Bit(i - 1))
  {
    if i > 0 { Doubled(Bit(i - 1)); }
  }

  lemma Doubled(w: bv32)
    ensures w << 1 == w + w
  {
  }

  lemma {:induction false} BitsApart(i: nat, j: nat)
    requires i < BITS_IN_WORD && j < BITS_IN_WORD && i != j
    ensures !Meets(Bit(i), Bit(j))
  {
    if i > 0 && j > 0 {
      BitsApart(i - 1, j - 1);
    }
  }

  /** `w` shifted left `k` times. */
  function Shifted(w: bv32, k: nat): bv32
    decreases k
  {
    if k == 0 then w else Shifted(w << 1, k - 1)
  }

  lemma {:induction false} ShiftedZero(k: nat)
    ensures Shifted(0, k) == 0
  {
    if k > 0 { ShiftedZero(k - 1); }
  }

  lemma {:induction false} ShiftedBit(i: nat)
    requires i < BITS_IN_WORD
    ensures Shifted(Bit(i), 31 - i) == Bit(31)
    decreases 31 - i
  {
    if i < 31 { ShiftedBit(i + 1); }
  }

  lemma HighestBit()
    ensures Bit(31) == 0x8000_0000
  {
    assert Bit(8) == 0x100;
    assert Bit(16) == 0x1_0000;
    assert Bit(24) == 0x100_0000;
  }

  lemma BitMeetsItself(i: nat)
    requires i < BITS_IN_WORD
    ensures Meets(Bit(i), Bit(i))
  {
    hide Bit, Shifted;
    ShiftedBit(i);
    ShiftedZero(31 - i);
    HighestBit();
  }

  lemma CommonAfterSet(w: bv32, b: bv32, c: bv32)
    requires Common(b, c) == 0
    ensures Common(With(w, b), c) == Common(w, c)
  {
  }

  lemma CommonAfterClear(w: bv32, b: bv32, c: bv32)
    requires Common(b, c) == 0
    ensures Common(Without(w, b), c) == Common(w, c)
  {
  }

  lemma SetApart(w: bv32, b: bv32, c: bv32)
    requires !Meets(b, c)
    ensures Meets(With(w, b), c) == Meets(w, c)
  {
    hide Common, With;
    CommonAfterSet(w, b, c);
  }

  lemma ClearApart(w: bv32, b: bv32, c: bv32)
    requires !Meets(b, c)
    ensures Meets(Without(w, b), c) == Meets(w, c)
  {
    hide Common, Without;
    CommonAfterClear(w, b, c);
  }

  lemma MaskTogether(w: bv32, b: bv32)
    requires Meets(b, b)
    ensures Meets(With(w, b), b) && !Meets(Without(w, b), b)
  {
  }

  /** Setting or clearing a bit moves that bit and no other. */
  lemma StoreBit(w: bv32, i: nat, j: nat)
    requires i < BITS_IN_WORD && j < BITS_IN_WORD
    ensures Meets(With(w, Bit(i)), Bit(j)) == (i == j || Meets(w, Bit(j)))
    ensures Meets(Without(w, Bit(i)), Bit(j)) == (i != j && Meets(w, Bit(j)))
  {
    hide Meets, With, Without, Bit;
    if i == j {
      BitMeetsItself(i);
      MaskTogether(w, Bit(i));
    } else {
      BitsApart(i, j);
      SetApart(w, Bit(i), Bit(j));
      ClearApart(w, Bit(i), Bit(j));
    }
  }

  /** Is bit `n` of the packed words set? */
  predicate IsSet(words: seq<bv32>, n: int)
    requires 0 <= n < |words| * BITS_IN_WORD
  {
    Meets(words[n / BITS_IN_WORD], Bit(n % BITS_IN_WORD))
  }

  /** The set of marked bits among the first `numBits`. */
  function Marked(words: seq<bv32>, numBits: int): set<int>
    requires 0 <= numBits <= |words| * BITS_IN_WORD
  {
    set n | 0 <= n < numBits && IsSet(words, n)
  }

  lemma MarkedAfterSet(words: seq<bv32>, numBits: int, which: int)
    requires 0 <= which < numBits <= |words| * BITS_IN_WORD
    ensures var w := which / BITS_IN_WORD;
            Marked(words[w := With(words[w], Bit(which % BITS_IN_WORD))], numBits) == Marked(words, numBits) + {which}
  {
    hide Meets, With, Bit;
    var w := which / BITS_IN_WORD;
    var words' := words[w := With(words[w], Bit(which % BITS_IN_WORD))];
    forall n | 0 <= n < numBits
      ensures IsSet(words', n) == (n == which || IsSet(words, n))
    {
      StoreBit(words[w], which % BITS_IN_WORD, n % BITS_IN_WORD);
    }
  }

  lemma MarkedAfterClear(words: seq<bv32>, numBits: int, which: int)
    requires 0 <= which < numBits <= |words| * BITS_IN_WORD
    ensures var w := which / BITS_IN_WORD;
            Marked(words[w := Without(words[w], Bit(which % BITS_IN_WORD))], numBits)
            == Marked(words, numBits) - {which}
  {
    hide Meets, Without, Bit;
    var w := which / BITS_IN_WORD;
    var words' := words[w := Without(words[w], Bit(which % BITS_IN_WORD))];
    forall n | 0 <= n < numBits
      ensures IsSet(words', n) == (n != which && IsSet(words, n))
    {
      StoreBit(words[w], which % BITS_IN_WORD, n % BITS_IN_WORD);
    }
  }

  /** The memory image of the packed words. */
  function WordBytes(words: seq<bv32>): (s: seq<byte>)
    ensures |s| == 4 * |words|
  {
    seq(4 * |words|, k requires 0 <= k < 4 * |words| => ByteOf(words[k / 4] as int, k % 4))
  }

  /** The packed words a memory image holds. */
  function BytesToWords(s: seq<byte>): (words: seq<bv32>)
    ensures |words| == |s| / 4
  {
    seq(|s| / 4, i requires 0 <= i < |s| / 4 => WordAt(s, 4 * i) as bv32)
  }

  /** A word takes four bytes, least significant first. */
  lemma WordsLayout(words: seq<bv32>, i: nat)
    requires i < |words|
    ensures var (s, at) := (WordBytes(words), 4 * i);
            at + 4 <= |s|
            && s[at] as int + 256 * s[at + 1] as int + 65536 * s[at + 2] as int + 16777216 * s[at + 3] as int
               == words[i] as int
  {
    hide ByteOf;
    assert 4 * i / 4 == i && (4 * i + 1) / 4 == i && (4 * i + 2) / 4 == i && (4 * i + 3) / 4 == i;
    WordRoundTrip(words[i] as int, WordBytes(words), 4 * i);
  }

  lemma WordBack(w: bv32)
    ensures (w as int) as bv32 == w
  {
  }

  lemma WordsRoundTrip(words: seq<bv32>)
    ensures BytesToWords(WordBytes(words)) == words
  {
    hide ByteOf, WordAt;
    var s := WordBytes(words);
    forall i | 0 <= i < |words|
      ensures BytesToWords(s)[i] == words[i]
    {
      assert 4 * i / 4 == i && (4 * i + 1) / 4 == i && (4 * i + 2) / 4 == i && (4 * i + 3) / 4 == i;
      WordRoundTrip(words[i] as int, s, 4 * i);
      WordBack(words[i]);
    }
  }

  /** Fewer bits marked than there are leaves one clear. */
  lemma SomeBitClear(bits: nat, marked: set<int>, more: set<int>)
    requires |marked| + |more| < bits
    ensures exists n :: 0 <= n < bits && n !in marked + more
  {
    var all := Range(bits);
    SubsetSize(all, marked + more);
    assert marked + more == marked + (more - marked);
    assert !(all <= marked + more);
  }

  function Range(n: nat): (r: set<int>)
    ensures forall x :: x in r <==> 0 <= x < n
    ensures |r| == n
  {
    if n == 0 then {} else Range(n - 1) + {n - 1}
  }

  /** The members below a bound. */
  ghost function Below(s: set<int>, bound: int): set<int> {
    set n | n in s && n < bound
  }

  lemma NoneBelow(words: seq<bv32>, numBits: int)
    requires 0 <= numBits <= |words| * BITS_IN_WORD
    ensures Below(Marked(words, numBits), 0) == {}
  {
    hide IsSet;
  }

  lemma NextBelow(s: set<int>, bound: int)
    ensures |Below(s, bound + 1)| == |Below(s, bound)| + (if bound in s then 1 else 0)
  {
    assert Below(s, bound + 1) == if bound in s then Below(s, bound) + {bound} else Below(s, bound);
  }

  lemma AllBelow(words: seq<bv32>, numBits: int)
    requires 0 <= numBits <= |words| * BITS_IN_WORD
    ensures Below(Marked(words, numBits), numBits) == Marked(words, numBits)
  {
    hide IsSet;
  }

  class BitMap {
    var numBits: nat
    var words: array<bv32>

    ghost predicate Valid()
      reads this
    {
      numBits <= words.Length * BITS_IN_WORD < numBits + BITS_IN_WORD
    }

    /** The bits that are set. */
    ghost function Contents(): set<int>
      requires Valid()
      reads this, words
    {
      Marked(words[..], numBits)
    }

    constructor (nitems: nat)
      ensures Valid() && fresh(words) && numBits == nitems && Contents() == {}
    {
      numBits := nitems;
      words := new bv32[DivRoundUp(nitems, BITS_IN_WORD)];
      new;
      var i := 0;
      while i < numBits
        invariant 0 <= i <= numBits == nitems && Valid() && fresh(words)
        invariant forall n :: 0 <= n < i ==> n !in Contents()
      {
        Clear(i);
        i := i + 1;
      }
    }

    method Mark(which: int)
      requires Valid() && 0 <= which < numBits
      modifies words
      ensures Valid() && Contents() == old(Contents()) + {which}
    {
      hide With, Marked;
      MarkedAfterSet(words[..], numBits, which);
      ghost var w := which / BITS_IN_WORD;
      ghost var target := words[..][w := With(words[w], Bit(which % BITS_IN_WORD))];
      words[which / BITS_IN_WORD] := With(words[which / BITS_IN_WORD], Bit(which % BITS_IN_WORD));
      assert words[..] == target;
    }

    method Clear(which: int)
      requires Valid() && 0 <= which < numBits
      modifies words
      ensures Valid() && Contents() == old(Contents()) - {which}
    {
      hide Without, Marked;
      MarkedAfterClear(words[..], numBits, which);
      ghost var w := which / BITS_IN_WORD;
      ghost var target := words[..][w := Without(words[w], Bit(which % BITS_IN_WORD))];
      words[which / BITS_IN_WORD] := Without(words[which / BITS_IN_WORD], Bit(which % BITS_IN_WORD));
      assert words[..] == target;
    }

    method Test(which: int) returns (marked: bool)
      requires Valid() && 0 <= which < numBits
      ensures marked == (which in Contents())
    {
      marked := Meets(words[which / BITS_IN_WORD], Bit(which % BITS_IN_WORD));
      assert marked == IsSet(words[..], which);
    }

    /** Marks and returns the lowest clear bit; -1, and no change, exactly when none is clear. */
    method Find() returns (n: int)
      requires Valid()
      modifies words
      ensures Valid()
      ensures n == -1 ==> Contents() == old(Contents()) && forall i :: 0 <= i < numBits ==> i in old(Contents())
      ensures n != -1 ==> 0 <= n < numBits && n !in old(Contents()) && Contents() == old(Contents()) + {n}
      ensures n != -1 ==> forall i :: 0 <= i < n ==> i in old(Contents())
    {
      var i := 0;
      while i < numBits
        invariant 0 <= i <= numBits
        invariant words[..] == old(words[..])
        invariant forall j :: 0 <= j < i ==> j in old(Contents())
      {
        var marked := Test(i);
        if !marked {
          Mark(i);
          return i;
        }
        i := i + 1;
      }
      return -1;
    }

    /** Counts the clear bits. */
    method NumClear() returns (count: int)
      requires Valid()
      ensures count == numBits - |Contents()|
    {
      hide Marked, Below;
      count := 0;
      var i := 0;
      NoneBelow(words[..], numBits);
      while i < numBits
        invariant 0 <= i <= numBits
        invariant count == i - |Below(Contents(), i)|
      {
        NextBelow(Contents(), i);
        var marked := Test(i);
        if !marked {
          count := count + 1;
        }
        i := i + 1;
      }
      AllBelow(words[..], numBits);
    }

    /** Reads the words from a file; memory past the end of the file stays as it was. */
    method FetchFrom(file: OpenFile)
      requires Valid() && Usable(file.hdr)
      modifies words
      ensures words[..] == BytesToWords(Splice(WordBytes(old(words[..])), 0,
                                               Slice(file.Contents(), 4 * words.Length, 0)))
    {
      hide WordBytes, BytesToWords, Slice, Usable;
      var memory := new byte[4 * words.Length];
      Copy(WordBytes(words[..]), memory, 0);
      assert memory[..] == WordBytes(words[..]);
      var _ := file.ReadAt(memory, 0, 4 * words.Length, 0);
      var fetched := BytesToWords(memory[..]);
      forall i | 0 <= i < words.Length {
        words[i] := fetched[i];
      }
      assert words[..] == fetched;
    }

    /** Writes the words to a file, as far as it reaches. */
    method WriteBack(file: OpenFile)
      requires Valid() && Usable(file.hdr)
      modifies file.disk
      ensures file.Contents() == Written(old(file.Contents()), WordBytes(words[..]), 4 * words.Length, 0)
      ensures forall s :: 0 <= s < NUM_SECTORS && s !in DataSet(file.hdr) ==>
                file.disk.image[s] == old(file.disk.image)[s]
    {
      var _ := file.WriteAt(WordBytes(words[..]), 4 * words.Length, 0);
    }
  }
}
