/** The double-word multiply of the simulated MIPS processor (machine/mipssim.cc, Mult).

    Machine words are modelled as mathematical integers with the wrap-around of 32-bit
    hardware written out: an `int32` is a two's-complement word, a `uint32` an unsigned one.
 */
module Multiply {
  import opened Encoding

  const TWO_31 := 0x8000_0000
  const TWO_32 := 0x1_0000_0000

  /** The low 32 bits of any integer, as unsigned arithmetic keeps them. */
  function Wrap(x: int): uint32 {
    x % TWO_32
  }

  /** Two's-complement negation; the most negative word is its own negation. */
  function Negate(x: int32): int32 {
    ToSigned(Wrap(-(x as int)))
  }

  /** The value of a double word whose two halves are both read unsigned. */
  function Double(hi: uint32, lo: uint32): int {
    hi * TWO_32 + lo
  }

  /** Magnitude of an operand in the reading the caller asked for. */
  function Magnitude(x: int32, signedArith: bool): uint32 {
    if signedArith && x < 0 then -(x as int) else ToUnsigned(x)
  }

  function Pow2(n: nat): nat {
    if n == 0 then 1 else 2 * Pow2(n - 1)
  }

  lemma {:induction false} Pow2Positive(n: nat)
    ensures Pow2(n) >= 1
  {
    if n > 0 { Pow2Positive(n - 1); }
  }

  lemma {:induction false} Pow2Monotone(m: nat, n: nat)
    requires m <= n
    ensures Pow2(m) <= Pow2(n)
  {
    if m < n { Pow2Monotone(m, n - 1); }
  }

  lemma Pow2Of32()
    ensures Pow2(32) == TWO_32
  {
    assert Pow2(8) == 256;
    assert Pow2(16) == 65536 by { assert Pow2(12) == 4096; }
    assert Pow2(24) == 16777216 by { assert Pow2(20) == 1048576; }
    assert Pow2(28) == 268435456;
  }

  /** The addition of one iteration, with the carry out of the low half spotted by the wrapped sum
      being smaller than an addend: it is addition of double words as long as the sum fits. */
  method AddDouble(hi0: uint32, lo0: uint32, bHi: uint32, bLo: uint32) returns (hi: uint32, lo: uint32)
    requires Double(hi0, lo0) + Double(bHi, bLo) < TWO_32 * TWO_32
    ensures Double(hi, lo) == Double(hi0, lo0) + Double(bHi, bLo)
  {
    hi := hi0;
    lo := Wrap(lo0 + bLo);
    if lo < bLo {
      hi := Wrap(hi + 1);
    }
    hi := Wrap(hi + bHi);
  }

  /** Shifting both halves left by one, moving the top bit of the low half across: it doubles the
      double word as long as the result fits. */
  method ShiftDouble(bHi0: uint32, bLo0: uint32) returns (bHi: uint32, bLo: uint32)
    requires 2 * Double(bHi0, bLo0) < TWO_32 * TWO_32
    ensures Double(bHi, bLo) == 2 * Double(bHi0, bLo0)
  {
    assert bHi0 < TWO_31;
    bHi := Wrap(2 * bHi0);
    if bLo0 >= TWO_31 {
      bHi := bHi + 1;
    }
    bLo := Wrap(2 * bLo0);
  }

  /** Complementing both halves and adding one, with the carry out of the low half: the
      two's-complement negation of the double word. */
  method NegateDouble(hi0: uint32, lo0: uint32) returns (hi: uint32, lo: uint32)
    ensures Double(hi, lo) == if Double(hi0, lo0) == 0 then 0 else TWO_32 * TWO_32 - Double(hi0, lo0)
  {
    hi := TWO_32 - 1 - hi0;
    lo := TWO_32 - 1 - lo0;
    lo := Wrap(lo + 1);
    if lo == 0 {
      hi := Wrap(hi + 1);
    }
  }

  /** Reading the high half signed turns a two's-complement double word of a number that fits in
      64 signed bits back into that number. */
  lemma SignedReading(v: int, hi: uint32, lo: uint32)
    requires -(TWO_31 * TWO_31) <= v <= TWO_31 * TWO_31
    requires Double(hi, lo) == if v < 0 then v + TWO_32 * TWO_32 else v
    ensures ToSigned(hi) * TWO_32 + ToUnsigned(ToSigned(lo)) == v
  {
    assert v >= 0 <==> hi < TWO_31;
  }

  /** Multiplication by repeated addition: what the shift-and-add loop is measured against. */
  function Times(n: nat, k: nat): nat {
    if n == 0 then 0 else Times(n - 1, k) + k
  }

  lemma {:induction false} TimesIsProduct(n: nat, k: nat)
    ensures Times(n, k) == n * k
  {
    if n > 0 {
      TimesIsProduct(n - 1, k);
      assert (n - 1) * k + k == n * k;
    }
  }

  lemma {:induction false} TimesAdd(m: nat, n: nat, k: nat)
    ensures Times(m + n, k) == Times(m, k) + Times(n, k)
  {
    if n > 0 {
      TimesAdd(m, n - 1, k);
      assert m + n - 1 == m + (n - 1);
    }
  }

  lemma {:induction false} TimesDouble(n: nat, k: nat)
    ensures Times(n, 2 * k) == Times(2 * n, k)
  {
    if n > 0 {
      TimesDouble(n - 1, k);
      assert Times(2 * n - 1, k) == Times(2 * n - 2, k) + k;
    }
  }

  lemma {:induction false} TimesMonotone(m: nat, n: nat, k: nat)
    requires m <= n
    ensures Times(m, k) <= Times(n, k)
  {
    TimesAdd(m, n - m, k);
  }

  /** How far the loop has come before iteration `i`: the `i` low bits of the multiplier `x` are
      already multiplied into the accumulator, `rest` holds the others, and the addend is the
      multiplicand moved up by `i` places. The word in the loop is `rest` itself, or `rest`
      below a run of copied sign bits when the multiplier has its top bit set. */
  ghost predicate Progress(x: uint32, y: uint32, i: nat, low: nat, rest: nat, a: int,
                           acc: int, addend: int)
  {
    && i <= 32
    && x == Times(rest, Pow2(i)) + low
    && low < Pow2(i)
    && rest < Pow2(32 - i)
    && (a == rest || a == rest - Pow2(32 - i))
    && acc == Times(low, y)
    && addend == Times(Pow2(i), y)
  }

  lemma ProgressInit(x: uint32, y: uint32, a: int)
    requires a == x || a == x - TWO_32
    ensures Progress(x, y, 0, 0, x, a, 0, y)
  {
    Pow2Of32();
    TimesIsProduct(x, 1);
    TimesIsProduct(1, y);
  }

  /** The accumulator plus the addend, and twice the addend, still fit in a double word. */
  lemma StepFits(y: uint32, p: nat, low: nat)
    requires low < p && 2 * p <= TWO_32
    ensures Times(low, y) + Times(p, y) < TWO_32 * TWO_32
    ensures 2 * Times(p, y) < TWO_32 * TWO_32
  {
    TimesAdd(low, p, y);
    TimesAdd(p, p, y);
    TimesMonotone(low + p, TWO_32, y);
    TimesMonotone(p + p, TWO_32, y);
    TimesIsProduct(TWO_32, y);
  }

  /** Moving the low bit of `rest` into the part already multiplied. */
  lemma StepSplits(p: nat, low: nat, rest: nat)
    requires low < p
    ensures Times(rest / 2, 2 * p) + (if rest % 2 == 1 then low + p else low) == Times(rest, p) + low
  {
    TimesDouble(rest / 2, p);
    assert rest == 2 * (rest / 2) + rest % 2;
  }

  /** The word in the loop: an arithmetic shift keeps it `rest`, or `rest` below copied sign bits. */
  lemma StepWord(a: int, rest: nat, q: nat)
    requires q > 0 && rest < 2 * q && (a == rest || a == rest - 2 * q)
    ensures a % 2 == rest % 2 && rest / 2 < q && (a / 2 == rest / 2 || a / 2 == rest / 2 - q)
  {
  }

  lemma PowStep(i: nat)
    requires i < 32
    ensures Pow2(i + 1) == 2 * Pow2(i) && Pow2(32 - i) == 2 * Pow2(31 - i) && Pow2(31 - i) > 0
  {
    Pow2Positive(31 - i);
  }

  /** What the accumulator becomes, and that it and the addend fit. */
  lemma StepAdds(y: uint32, i: nat, low: nat)
    requires i < 32 && low < Pow2(i)
    ensures Times(low, y) + Times(Pow2(i), y) == Times(low + Pow2(i), y) < TWO_32 * TWO_32
    ensures 2 * Times(Pow2(i), y) == Times(Pow2(i + 1), y) < TWO_32 * TWO_32
  {
    hide Times, Pow2;
    var p := Pow2(i);
    PowStep(i);
    TimesAdd(low, p, y);
    TimesAdd(p, p, y);
    Pow2Of32();
    Pow2Monotone(i + 1, 32);
    StepFits(y, p, low);
  }

  /** One iteration: adding when the low bit is set and then shifting both words. */
  lemma ProgressStep(x: uint32, y: uint32, i: nat, low: nat, rest: nat, a: int, acc: int, addend: int)
    requires i < 32
    requires Progress(x, y, i, low, rest, a, acc, addend)
    ensures a % 2 == rest % 2
    ensures 0 <= acc + addend < TWO_32 * TWO_32
    ensures 0 <= 2 * addend < TWO_32 * TWO_32
    ensures Progress(x, y, i + 1, if a % 2 == 1 then low + Pow2(i) else low, rest / 2, a / 2,
                     if a % 2 == 1 then acc + addend else acc, 2 * addend)
  {
    hide Times, Pow2;
    PowStep(i);
    StepWord(a, rest, Pow2(31 - i));
    StepSplits(Pow2(i), low, rest);
    StepAdds(y, i, low);
  }

  /** Leaving early with a single bit left completes the product. */
  lemma ProgressLast(x: uint32, y: uint32, i: nat, low: nat, rest: nat, a: int, acc: int, addend: int)
    requires i < 32
    requires Progress(x, y, i, low, rest, a, acc, addend)
    requires a == 1
    ensures acc + addend == Times(x, y)
  {
    assert rest == 1;
    assert Times(1, Pow2(i)) == Pow2(i);
    TimesAdd(low, Pow2(i), y);
  }

  lemma ProgressDone(x: uint32, y: uint32, low: nat, rest: nat, a: int, acc: int, addend: int)
    requires Progress(x, y, 32, low, rest, a, acc, addend)
    ensures acc == Times(x, y)
  {
    assert Pow2(32 - 32) == 1;
  }

  lemma {:induction false} MultiplyMonotone(x: nat, y: nat, k: nat)
    requires x <= y
    ensures x * k <= y * k
  {
    assert (y - x) * k >= 0;
  }

  /** What is left of the word in the loop once its low bit is cleared. */
  predicate IsLastBit(a: int32) {
    ToUnsigned(a) - ToUnsigned(a) % 2 == 0
  }

  /** The product of two magnitudes fits in 63 bits when both come from signed operands. */
  lemma MagnitudesFit(a: int32, b: int32)
    ensures 0 <= Magnitude(a, true) * Magnitude(b, true) <= TWO_31 * TWO_31
  {
    ProductBound(Magnitude(a, true), Magnitude(b, true), TWO_31);
  }

  lemma ProductBound(x: nat, y: nat, bound: nat)
    requires x <= bound && y <= bound
    ensures 0 <= x * y <= bound * bound
  {
    MultiplyMonotone(x, bound, y);
    MultiplyMonotone(y, bound, bound);
    assert bound * y == y * bound;
  }

  /** The product of the meanings is the product of the magnitudes with the sign put back. */
  lemma SignOfProduct(a: int32, b: int32)
    ensures var m := Magnitude(a, true) * Magnitude(b, true);
            a * b == if (a < 0) != (b < 0) then -m else m
  {
    var x: int, y: int := Magnitude(a, true), Magnitude(b, true);
    assert (0 - x) * y == -(x * y) && x * (0 - y) == -(x * y) && (0 - x) * (0 - y) == x * y;
    assert a == (if a < 0 then 0 - x else x) && b == (if b < 0 then 0 - y else y);
  }

  lemma ResultIsProduct(a: int32, b: int32, signedArith: bool, magnitude: int, hi: uint32, lo: uint32)
    requires magnitude == Times(Magnitude(a, signedArith), Magnitude(b, signedArith))
    requires var negative := signedArith && (a < 0) != (b < 0);
             Double(hi, lo) == if negative && magnitude != 0 then TWO_32 * TWO_32 - magnitude else magnitude
    ensures signedArith ==> ToSigned(hi) * TWO_32 + ToUnsigned(ToSigned(lo)) == a * b
    ensures !signedArith ==> Double(hi, lo) == ToUnsigned(a) * ToUnsigned(b)
  {
    TimesIsProduct(Magnitude(a, signedArith), Magnitude(b, signedArith));
    if signedArith {
      MagnitudesFit(a, b);
      SignOfProduct(a, b);
      SignedReading(a * b, hi, lo);
    }
  }

  /** The main loop: multiplies the word `a0`, read unsigned, by `y` one bit at a time. The shift
      of the word is arithmetic, so a word with its top bit set never takes the early exit. */
  method ShiftAndAdd(a0: int32, y: uint32) returns (hi: uint32, lo: uint32)
    ensures Double(hi, lo) == Times(ToUnsigned(a0), y)
  {
    var a := a0;
    var bLo: uint32, bHi: uint32 := y, 0;
    lo, hi := 0, 0;
    ghost var x := ToUnsigned(a);
    ghost var low: nat, rest: nat := 0, x;
    ProgressInit(x, y, a);
    var i := 0;
    while i < 32
      invariant 0 <= i <= 32
      invariant Progress(x, y, i, low, rest, a, Double(hi, lo), Double(bHi, bLo))
    {
      ProgressStep(x, y, i, low, rest, a, Double(hi, lo), Double(bHi, bLo));
      ghost var more := a % 2 == 1;
      if a % 2 == 1 {
        if IsLastBit(a) {
          ProgressLast(x, y, i, low, rest, a, Double(hi, lo), Double(bHi, bLo));
        }
        hi, lo := AddDouble(hi, lo, bHi, bLo);
        if IsLastBit(a) {
          return;
        }
      }
      bHi, bLo := ShiftDouble(bHi, bLo);
      low, rest := if more then low + Pow2(i) else low, rest / 2;
      a := a / 2;
      i := i + 1;
    }
    ProgressDone(x, y, low, rest, a, Double(hi, lo), Double(bHi, bLo));
  }

  /** With a zero operand both words are zero. */
  lemma ZeroProduct(a: int32, b: int32)
    ensures a == 0 || b == 0 ==> a * b == 0 && ToUnsigned(a) * ToUnsigned(b) == 0
    ensures ToUnsigned(0) == 0 && Double(0, 0) == 0
  {
  }

  /** An operand, negated first if it is read signed and negative, is its magnitude. */
  lemma OperandMagnitude(a: int32)
    ensures Magnitude(a, false) == ToUnsigned(a)
    ensures Magnitude(a, true) == ToUnsigned(if a < 0 then Negate(a) else a)
  {
  }

  lemma WordsBack(hi: uint32, lo: uint32)
    ensures Double(ToUnsigned(ToSigned(hi)), ToUnsigned(ToSigned(lo))) == Double(hi, lo)
  {
  }

  /** The double-length product of two words, for MULT (signedArith) and MULTU: exact for every
      pair of operands. */
  method Mult(a0: int32, b0: int32, signedArith: bool) returns (hiWord: int32, loWord: int32)
    ensures signedArith ==> hiWord * TWO_32 + ToUnsigned(loWord) == a0 * b0
    ensures !signedArith ==>
              Double(ToUnsigned(hiWord), ToUnsigned(loWord)) == ToUnsigned(a0) * ToUnsigned(b0)
  {
    hide Times, Negate, ToSigned, ToUnsigned, Magnitude, Double;
    ZeroProduct(a0, b0);
    OperandMagnitude(a0);
    OperandMagnitude(b0);
    if a0 == 0 || b0 == 0 {
      return 0, 0;
    }
    var a, b := a0, b0;
    var negative := false;
    if signedArith {
      if a < 0 {
        negative := !negative;
        a := Negate(a);
      }
      if b < 0 {
        negative := !negative;
        b := Negate(b);
      }
    }
    var hi, lo := ShiftAndAdd(a, ToUnsigned(b));
    ghost var magnitude := Double(hi, lo);
    if negative {
      hi, lo := NegateDouble(hi, lo);
    }
    hiWord, loWord := ToSigned(hi), ToSigned(lo);
    WordsBack(hi, lo);
    ResultIsProduct(a0, b0, signedArith, magnitude, hi, lo);
  }
}
