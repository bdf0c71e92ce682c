// jit/Common/BitSet.h: population count and count-trailing-zeros for
// uint32 and uint64.
//
// On Windows CountSetBits is the branch-free "bit hack" template; elsewhere
// it is __builtin_popcount / __builtin_popcountll.  The builtins are
// modelled by their meaning, the number of 1 bits counted one bit at a time
// (`PopCount32`, `PopCount64`); the bit hack at T = uint32 is modelled fold
// by fold and proved to return that same number.  LeastSignificantSetBit is
// _BitScanForward / __builtin_ctz, whose result is undefined for 0.
module BitSet {

  // ================================================================ 32 bits

  /** Lowest bit of `v`, as a count. */
  function Low32(v: bv32): nat { if v & 1 == 1 then 1 else 0 }

  function Half32(v: bv32): bv32 { v >> 1 }

  /** `v` shifted right by `k` positions, one position at a time. */
  function Shifted32(v: bv32, k: nat): bv32
  {
    if k == 0 then v else Shifted32(Half32(v), k - 1)
  }

  /** Bit `i` of `v`, 0 or 1. */
  function BitAt32(v: bv32, i: nat): nat { Low32(Shifted32(v, i)) }

  lemma {:induction false} ShiftedTwice32(v: bv32, a: nat, b: nat)
    ensures Shifted32(Shifted32(v, a), b) == Shifted32(v, a + b)
  {
    if a > 0 {
      ShiftedTwice32(Half32(v), a - 1, b);
    }
  }

  lemma ShiftedByte32(v: bv32)
    ensures Shifted32(v, 8) == v >> 8
  {
    var w1 := Half32(v); var w2 := Half32(w1); var w3 := Half32(w2); var w4 := Half32(w3);
    var w5 := Half32(w4); var w6 := Half32(w5); var w7 := Half32(w6); var w8 := Half32(w7);
    assert Shifted32(v, 8) == Shifted32(w1, 7) == Shifted32(w2, 6) == Shifted32(w3, 5) == Shifted32(w4, 4);
    assert Shifted32(w4, 4) == Shifted32(w5, 3) == Shifted32(w6, 2) == Shifted32(w7, 1) == w8;
    assert w8 == v >> 8;
  }

  /** No 32-bit word has a bit at position 32 or above. */
  lemma ShiftedOut32(v: bv32)
    ensures Shifted32(v, 32) == 0
  {
    var a := v >> 8;
    var b := a >> 8;
    var c := b >> 8;
    assert c >> 8 == 0;
    ShiftedByte32(v); ShiftedByte32(a); ShiftedByte32(b); ShiftedByte32(c);
    ShiftedTwice32(c, 8, 0);
    ShiftedTwice32(b, 8, 8);
    ShiftedTwice32(a, 8, 16);
    ShiftedTwice32(v, 8, 24);
  }

  /** Number of 1 bits among the lowest `n` bits of `v`. */
  function OnesBelow32(v: bv32, n: nat): (r: nat)
    ensures r <= n
  {
    if n == 0 then 0 else Low32(v) + OnesBelow32(Half32(v), n - 1)
  }

  /** What __builtin_popcount returns: the number of 1 bits of `v`. */
  function PopCount32(v: bv32): (r: nat)
    ensures r <= 32
  {
    OnesBelow32(v, 32)
  }

  /** Counting a + b bits is counting a bits, then b bits of what lies above them. */
  lemma {:induction false} OnesAdd32(v: bv32, a: nat, b: nat)
    ensures OnesBelow32(v, a + b) == OnesBelow32(v, a) + OnesBelow32(Shifted32(v, a), b)
  {
    if a > 0 {
      OnesAdd32(Half32(v), a - 1, b);
    }
  }

  lemma ShrShr32(v: bv32, a: bv32, b: bv32)
    requires a == v >> 8 && b == a >> 8
    ensures b == v >> 16 && b >> 8 == v >> 24
  {
  }

  lemma Shifted16x32(v: bv32)
    ensures Shifted32(v, 16) == v >> 16
  {
    var a := v >> 8;
    var b := a >> 8;
    ShrShr32(v, a, b);
    ShiftedByte32(v);
    ShiftedByte32(a);
    ShiftedTwice32(v, 8, 8);
  }

  lemma Shifted24x32(v: bv32)
    ensures Shifted32(v, 24) == v >> 24
  {
    var a := v >> 8;
    var b := a >> 8;
    ShrShr32(v, a, b);
    Shifted16x32(v);
    ShiftedByte32(b);
    ShiftedTwice32(v, 16, 8);
  }

  /** The count of a word is the sum of the counts of its four bytes. */
  lemma PopCountByBytes32(v: bv32)
    ensures PopCount32(v) == OnesBelow32(v >> 24, 8) + OnesBelow32(v >> 16, 8)
                             + OnesBelow32(v >> 8, 8) + OnesBelow32(v, 8)
  {
    OnesAdd32(v, 8, 24);
    OnesAdd32(Shifted32(v, 8), 8, 16);
    ShiftedTwice32(v, 8, 8);
    OnesAdd32(Shifted32(v, 16), 8, 8);
    ShiftedTwice32(v, 16, 8);
    ShiftedByte32(v);
    Shifted16x32(v);
    Shifted24x32(v);
  }

  /** The same count kept in a 32-bit register, as the bit hack keeps it. */
  function CountBv32(v: bv32, n: nat): bv32
  {
    if n == 0 then 0 else (v & 1) + CountBv32(Half32(v), n - 1)
  }

  lemma SmallCount32(r: bv32)
    requires r as int <= 31
    ensures r <= 31
  {
  }

  lemma AddLow32(v: bv32, r: bv32)
    requires r <= 31
    ensures ((v & 1) + r) as int == Low32(v) + r as int
  {
  }

  /** Up to 32 bits, the register never overflows and holds the count. */
  lemma {:induction false} CountBvIsCount32(v: bv32, n: nat)
    requires n <= 32
    ensures CountBv32(v, n) as int == OnesBelow32(v, n)
  {
    if n > 0 {
      var r := CountBv32(Half32(v), n - 1);
      CountBvIsCount32(Half32(v), n - 1);
      SmallCount32(r);
      AddLow32(v, r);
      assert CountBv32(v, n) == (v & 1) + r;
      assert OnesBelow32(v, n) == Low32(v) + OnesBelow32(Half32(v), n - 1);
    }
  }

  lemma SmallByteCount32(r: bv32)
    requires r as int <= 8
    ensures r <= 8
  {
  }

  lemma ByteCount32(v: bv32)
    ensures CountBv32(v, 8) as int == OnesBelow32(v, 8)
    ensures CountBv32(v, 8) <= 8
  {
    CountBvIsCount32(v, 8);
    SmallByteCount32(CountBv32(v, 8));
  }

  /** Bits 0..7 of `v` added up in a 32-bit register. */
  function ByteOnes32(v: bv32): bv32
  {
    (v & 1) + ((v >> 1) & 1) + ((v >> 2) & 1) + ((v >> 3) & 1)
    + ((v >> 4) & 1) + ((v >> 5) & 1) + ((v >> 6) & 1) + ((v >> 7) & 1)
  }

  lemma CountBvOfByte32(v: bv32)
    ensures CountBv32(v, 8) == ByteOnes32(v)
  {
    var w1 := Half32(v); var w2 := Half32(w1); var w3 := Half32(w2); var w4 := Half32(w3);
    var w5 := Half32(w4); var w6 := Half32(w5); var w7 := Half32(w6);
    assert CountBv32(v, 8) == (v & 1) + CountBv32(w1, 7);
    assert CountBv32(w1, 7) == (w1 & 1) + CountBv32(w2, 6);
    assert CountBv32(w2, 6) == (w2 & 1) + CountBv32(w3, 5);
    assert CountBv32(w3, 5) == (w3 & 1) + CountBv32(w4, 4);
    assert CountBv32(w4, 4) == (w4 & 1) + CountBv32(w5, 3);
    assert CountBv32(w5, 3) == (w5 & 1) + CountBv32(w6, 2);
    assert CountBv32(w6, 2) == (w6 & 1) + CountBv32(w7, 1);
    assert CountBv32(w7, 1) == w7 & 1;
  }

  // The folds of the bit hack for T = uint32: ~0/3 = 0x55555555,
  // ~0/15*3 = 0x33333333, ~0/255*15 = 0x0F0F0F0F, ~0/255 = 0x01010101,
  // and the final shift (sizeof(T) - 1) * 8 = 24.
  function Fold2x32(v: bv32): bv32 { v - ((v >> 1) & 0x5555_5555) }
  function Fold4x32(v: bv32): bv32 { (v & 0x3333_3333) + ((v >> 2) & 0x3333_3333) }
  function Fold8x32(v: bv32): bv32 { (v + (v >> 4)) & 0x0F0F_0F0F }
  function Folded32(v: bv32): bv32 { Fold8x32(Fold4x32(Fold2x32(v))) }
  function Gathered32(w: bv32): bv32 { (w * 0x0101_0101) >> 24 }

  // After the three folds, byte j holds the number of 1 bits of byte j.
  lemma FoldedHigh32(v: bv32) ensures Folded32(v) & 0xF0F0_F0F0 == 0 {}
  lemma FoldedByte0x32(v: bv32) ensures Folded32(v) & 0xFF == ByteOnes32(v) {}
  lemma FoldedByte1x32(v: bv32) ensures (Folded32(v) >> 8) & 0xFF == ByteOnes32(v >> 8) {}
  lemma FoldedByte2x32(v: bv32) ensures (Folded32(v) >> 16) & 0xFF == ByteOnes32(v >> 16) {}
  lemma FoldedByte3x32(v: bv32) ensures (Folded32(v) >> 24) & 0xFF == ByteOnes32(v >> 24) {}

  lemma FoldedLane0x32(v: bv32)
    ensures (Folded32(v) & 0xFF) as int == OnesBelow32(v, 8) && Folded32(v) & 0xFF <= 8
  {
    FoldedByte0x32(v); CountBvOfByte32(v); ByteCount32(v);
  }

  lemma FoldedLane1x32(v: bv32)
    ensures ((Folded32(v) >> 8) & 0xFF) as int == OnesBelow32(v >> 8, 8) && (Folded32(v) >> 8) & 0xFF <= 8
  {
    FoldedByte1x32(v); CountBvOfByte32(v >> 8); ByteCount32(v >> 8);
  }

  lemma FoldedLane2x32(v: bv32)
    ensures ((Folded32(v) >> 16) & 0xFF) as int == OnesBelow32(v >> 16, 8) && (Folded32(v) >> 16) & 0xFF <= 8
  {
    FoldedByte2x32(v); CountBvOfByte32(v >> 16); ByteCount32(v >> 16);
  }

  lemma FoldedLane3x32(v: bv32)
    ensures ((Folded32(v) >> 24) & 0xFF) as int == OnesBelow32(v >> 24, 8) && (Folded32(v) >> 24) & 0xFF <= 8
  {
    FoldedByte3x32(v); CountBvOfByte32(v >> 24); ByteCount32(v >> 24);
  }

  lemma MulFactors32(w: bv32) ensures w * 0x0101_0101 == (w * 0x101) * 0x1_0001 {}
  lemma MulBy101x32(w: bv32) ensures w * 0x101 == w + (w << 8) {}
  lemma MulBy10001x32(s: bv32) ensures s * 0x1_0001 == s + (s << 16) {}

  /** Adding `w << 8` to `w` puts the sum of bytes 3 and 2 in byte 3, of bytes 1 and 0 in byte 1. */
  lemma SumNeighbourBytes32(w: bv32)
    requires w & 0xF0F0_F0F0 == 0
    ensures var s := w + (w << 8);
      s & 0xE0E0_E0E0 == 0 &&
      (s >> 24) & 0xFF == ((w >> 24) & 0xFF) + ((w >> 16) & 0xFF) &&
      (s >> 8) & 0xFF == ((w >> 8) & 0xFF) + (w & 0xFF)
  {
  }

  lemma SumNeighbourPairs32(s: bv32)
    requires s & 0xE0E0_E0E0 == 0
    ensures (s + (s << 16)) >> 24 == ((s >> 24) & 0xFF) + ((s >> 8) & 0xFF)
  {
  }

  /**
   * The final multiply by ~0/255 adds the four bytes into the top byte: it
   * adds neighbouring bytes, then neighbouring pairs, and as no byte is
   * above 15 no byte ever carries into the next.
   */
  lemma GatherBytes32(w: bv32, high: bv32, low: bv32)
    requires w & 0xF0F0_F0F0 == 0
    requires high == ((w >> 24) & 0xFF) + ((w >> 16) & 0xFF)
    requires low == ((w >> 8) & 0xFF) + (w & 0xFF)
    ensures Gathered32(w) == high + low
  {
    MulFactors32(w);
    MulBy101x32(w);
    var s := w * 0x101;
    SumNeighbourBytes32(w);
    MulBy10001x32(s);
    SumNeighbourPairs32(s);
  }

  /** Adding two small counts in a register is adding them as numbers. */
  lemma AddSmall32(a: bv32, b: bv32)
    requires a <= 16 && b <= 16
    ensures (a + b) as int == a as int + b as int
  {
  }

  lemma SmallSum32(a: bv32, b: bv32)
    requires a <= 8 && b <= 8
    ensures a + b <= 16
  {
  }

  lemma SumOfFour32(a: bv32, b: bv32, c: bv32, d: bv32, high: bv32, low: bv32)
    requires a <= 8 && b <= 8 && c <= 8 && d <= 8
    requires high == a + b && low == c + d
    ensures (high + low) as int == a as int + b as int + c as int + d as int
  {
    AddSmall32(a, b);
    AddSmall32(c, d);
    SmallSum32(a, b);
    SmallSum32(c, d);
    AddSmall32(high, low);
  }

  /** The value the bit hack leaves in its register, before the cast to int. */
  function HackTotal32(v: bv32): bv32
  {
    Gathered32(Folded32(v))
  }

  /** Whatever the folds leave, the multiply adds up its four bytes. */
  lemma GatherLanes32(w: bv32)
    requires w & 0xF0F0_F0F0 == 0
    ensures Gathered32(w) == (((w >> 24) & 0xFF) + ((w >> 16) & 0xFF)) + (((w >> 8) & 0xFF) + (w & 0xFF))
  {
    GatherBytes32(w, ((w >> 24) & 0xFF) + ((w >> 16) & 0xFF), ((w >> 8) & 0xFF) + (w & 0xFF));
  }

  /** Whatever the folds leave, the multiply and the cast add up its four byte counts. */
  lemma GatherCounts32(h: bv32, w: bv32, n3: nat, n2: nat, n1: nat, n0: nat)
    requires h == Gathered32(w) && w & 0xF0F0_F0F0 == 0
    requires ((w >> 24) & 0xFF) as int == n3 && (w >> 24) & 0xFF <= 8
    requires ((w >> 16) & 0xFF) as int == n2 && (w >> 16) & 0xFF <= 8
    requires ((w >> 8) & 0xFF) as int == n1 && (w >> 8) & 0xFF <= 8
    requires (w & 0xFF) as int == n0 && w & 0xFF <= 8
    ensures h as int == n3 + n2 + n1 + n0
  {
    GatherLanes32(w);
    SumOfFour32((w >> 24) & 0xFF, (w >> 16) & 0xFF, (w >> 8) & 0xFF, w & 0xFF,
                ((w >> 24) & 0xFF) + ((w >> 16) & 0xFF), ((w >> 8) & 0xFF) + (w & 0xFF));
  }

  /** The hack's register holds, as a number, the sum of the counts of the four bytes. */
  lemma HackTotalBytes32(v: bv32)
    ensures HackTotal32(v) as int == OnesBelow32(v >> 24, 8) + OnesBelow32(v >> 16, 8)
                                     + OnesBelow32(v >> 8, 8) + OnesBelow32(v, 8)
  {
    FoldedHigh32(v);
    FoldedLane0x32(v); FoldedLane1x32(v); FoldedLane2x32(v); FoldedLane3x32(v);
    GatherCounts32(HackTotal32(v), Folded32(v),
                   OnesBelow32(v >> 24, 8), OnesBelow32(v >> 16, 8), OnesBelow32(v >> 8, 8), OnesBelow32(v, 8));
  }

  /** The Windows CountSetBits<uint32>: the number of 1 bits of `v`. */
  function CountSetBitsHack32(v: bv32): (r: int)
    ensures r == PopCount32(v)
    ensures 0 <= r <= 32
  {
    HackTotalBytes32(v);
    PopCountByBytes32(v);
    HackTotal32(v) as int
  }

  lemma {:induction false} BitAtHalf32(v: bv32, k: nat)
    requires k >= 1
    ensures BitAt32(v, k) == BitAt32(Half32(v), k - 1)
  {
  }

  /** Index of the lowest 1 bit of `v`, which lies below bit `n`. */
  function LowestFrom32(v: bv32, n: nat): (r: nat)
    requires v != 0 && Shifted32(v, n) == 0
    ensures r < n && BitAt32(v, r) == 1
    ensures forall k :: 0 <= k < r ==> BitAt32(v, k) == 0
  {
    if Low32(v) == 1 then 0
    else
      assert Half32(v) != 0;
      var r' := LowestFrom32(Half32(v), n - 1);
      LowerBitsClear32(v, r');
      r' + 1
  }

  lemma LowerBitsClear32(v: bv32, r': nat)
    requires Low32(v) == 0
    requires forall k :: 0 <= k < r' ==> BitAt32(Half32(v), k) == 0
    ensures forall k :: 0 <= k < r' + 1 ==> BitAt32(v, k) == 0
  {
    forall k | 0 <= k < r' + 1 ensures BitAt32(v, k) == 0 {
      if k >= 1 {
        BitAtHalf32(v, k);
      }
    }
  }

  /** LeastSignificantSetBit(uint32), undefined in the source for val == 0. */
  function LeastSignificantSetBit32(v: bv32): (r: int)
    requires v != 0
    ensures 0 <= r < 32 && BitAt32(v, r) == 1
    ensures forall k :: 0 <= k < r ==> BitAt32(v, k) == 0
  {
    ShiftedOut32(v);
    LowestFrom32(v, 32)
  }

  // ================================================================ 64 bits

  function Low64(v: bv64): nat { if v & 1 == 1 then 1 else 0 }

  function Half64(v: bv64): bv64 { v >> 1 }

  function Shifted64(v: bv64, k: nat): bv64
  {
    if k == 0 then v else Shifted64(Half64(v), k - 1)
  }

  function BitAt64(v: bv64, i: nat): nat { Low64(Shifted64(v, i)) }

  lemma {:induction false} ShiftedTwice64(v: bv64, a: nat, b: nat)
    ensures Shifted64(Shifted64(v, a), b) == Shifted64(v, a + b)
  {
    if a > 0 {
      ShiftedTwice64(Half64(v), a - 1, b);
    }
  }

  lemma ShiftedByte64(v: bv64)
    ensures Shifted64(v, 8) == v >> 8
  {
    var w1 := Half64(v); var w2 := Half64(w1); var w3 := Half64(w2); var w4 := Half64(w3);
    var w5 := Half64(w4); var w6 := Half64(w5); var w7 := Half64(w6); var w8 := Half64(w7);
    assert Shifted64(v, 8) == Shifted64(w1, 7) == Shifted64(w2, 6) == Shifted64(w3, 5) == Shifted64(w4, 4);
    assert Shifted64(w4, 4) == Shifted64(w5, 3) == Shifted64(w6, 2) == Shifted64(w7, 1) == w8;
    assert w8 == v >> 8;
  }

  /** No 64-bit word has a bit at position 64 or above. */
  lemma ShiftedOut64(v: bv64)
    ensures Shifted64(v, 64) == 0
  {
    var a1 := v >> 8;
    var a2 := a1 >> 8;
    var a3 := a2 >> 8;
    var a4 := a3 >> 8;
    var a5 := a4 >> 8;
    var a6 := a5 >> 8;
    var a7 := a6 >> 8;
    assert a7 >> 8 == 0;
    ShiftedByte64(v); ShiftedByte64(a1); ShiftedByte64(a2); ShiftedByte64(a3);
    ShiftedByte64(a4); ShiftedByte64(a5); ShiftedByte64(a6); ShiftedByte64(a7);
    ShiftedTwice64(a7, 8, 0);
    ShiftedTwice64(a6, 8, 8);
    ShiftedTwice64(a5, 8, 16);
    ShiftedTwice64(a4, 8, 24);
    ShiftedTwice64(a3, 8, 32);
    ShiftedTwice64(a2, 8, 40);
    ShiftedTwice64(a1, 8, 48);
    ShiftedTwice64(v, 8, 56);
  }


  function OnesBelow64(v: bv64, n: nat): (r: nat)
    ensures r <= n
  {
    if n == 0 then 0 else Low64(v) + OnesBelow64(Half64(v), n - 1)
  }

  /** What __builtin_popcountll returns: the number of 1 bits of `v`. */
  function PopCount64(v: bv64): (r: nat)
    ensures r <= 64
  {
    OnesBelow64(v, 64)
  }


  lemma {:induction false} BitAtHalf64(v: bv64, k: nat)
    requires k >= 1
    ensures BitAt64(v, k) == BitAt64(Half64(v), k - 1)
  {
  }

  /** Index of the lowest 1 bit of `v`, which lies below bit `n`. */
  function LowestFrom64(v: bv64, n: nat): (r: nat)
    requires v != 0 && Shifted64(v, n) == 0
    ensures r < n && BitAt64(v, r) == 1
    ensures forall k :: 0 <= k < r ==> BitAt64(v, k) == 0
  {
    if Low64(v) == 1 then 0
    else
      assert Half64(v) != 0;
      var r' := LowestFrom64(Half64(v), n - 1);
      LowerBitsClear64(v, r');
      r' + 1
  }

  lemma LowerBitsClear64(v: bv64, r': nat)
    requires Low64(v) == 0
    requires forall k :: 0 <= k < r' ==> BitAt64(Half64(v), k) == 0
    ensures forall k :: 0 <= k < r' + 1 ==> BitAt64(v, k) == 0
  {
    forall k | 0 <= k < r' + 1 ensures BitAt64(v, k) == 0 {
      if k >= 1 {
        BitAtHalf64(v, k);
      }
    }
  }

  /** LeastSignificantSetBit(uint64), undefined in the source for val == 0. */
  function LeastSignificantSetBit64(v: bv64): (r: int)
    requires v != 0
    ensures 0 <= r < 64 && BitAt64(v, r) == 1
    ensures forall k :: 0 <= k < r ==> BitAt64(v, k) == 0
  {
    ShiftedOut64(v);
    LowestFrom64(v, 64)
  }
}
