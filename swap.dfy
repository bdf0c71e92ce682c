// mednafen/mednafen.h: swap16 / swap32 / swap64, the byte-order reversal
// used throughout the emulator, and their pointer overloads.
//
// The three compiler branches (_byteswap_*, __builtin_bswap*, and the
// portable shift-and-or fallback) all compute the same value; the fallback
// is the one written out in the source, so it is the one modelled here.
// A word is related to its bytes through `Bytes*` (least significant byte
// first, the order an x86 host keeps them in memory).
module ByteSwap {
  import opened Words

  /** The bytes of `x`, least significant first. */
  function Bytes16(x: u16): (r: seq<u8>)
    ensures |r| == 2
  {
    [LowByte16(x), LowByte16(x >> 8)]
  }

  function Bytes32(x: u32): (r: seq<u8>)
    ensures |r| == 4
  {
    Bytes16(LowHalf32(x)) + Bytes16(LowHalf32(x >> 16))
  }

  function Bytes64(x: u64): (r: seq<u8>)
    ensures |r| == 8
  {
    Bytes32(LowHalf64(x)) + Bytes32(LowHalf64(x >> 32))
  }

  /** The word whose bytes, least significant first, are `b`. */
  function Word16(b: seq<u8>): u16
    requires |b| == 2
  {
    (b[0] as u16) | ((b[1] as u16) << 8)
  }

  function Word32(b: seq<u8>): u32
    requires |b| == 4
  {
    Join32(Word16(b[..2]), Word16(b[2..]))
  }

  function Word64(b: seq<u8>): u64
    requires |b| == 8
  {
    Join64(Word32(b[..4]), Word32(b[4..]))
  }

  /** The 32-bit word with low half `lo` and high half `hi`. */
  function Join32(lo: u16, hi: u16): u32
  {
    (lo as u32) | ((hi as u32) << 16)
  }

  lemma Join32Halves(lo: u16, hi: u16)
    ensures LowHalf32(Join32(lo, hi)) == lo && LowHalf32(Join32(lo, hi) >> 16) == hi
  {
  }

  lemma HalvesJoin32(x: u32)
    ensures Join32(LowHalf32(x), LowHalf32(x >> 16)) == x
  {
  }

  /** The 64-bit word with low half `lo` and high half `hi`. */
  function Join64(lo: u32, hi: u32): u64
  {
    (lo as u64) | ((hi as u64) << 32)
  }

  lemma Join64Halves(lo: u32, hi: u32)
    ensures LowHalf64(Join64(lo, hi)) == lo && LowHalf64(Join64(lo, hi) >> 32) == hi
  {
  }

  lemma HalvesJoin64(x: u64)
    ensures Join64(LowHalf64(x), LowHalf64(x >> 32)) == x
  {
  }

  function Reversed<T>(s: seq<T>): (r: seq<T>)
    ensures |r| == |s|
    ensures forall i :: 0 <= i < |s| ==> r[i] == s[|s| - 1 - i]
  {
    if s == [] then [] else Reversed(s[1..]) + [s[0]]
  }

  lemma Bytes16RoundTrip(x: u16)
    ensures Word16(Bytes16(x)) == x
  {
  }

  lemma Bytes32RoundTrip(x: u32)
    ensures Word32(Bytes32(x)) == x
  {
    var b := Bytes32(x);
    assert b[..2] == Bytes16(LowHalf32(x));
    assert b[2..] == Bytes16(LowHalf32(x >> 16));
    Bytes16RoundTrip(LowHalf32(x));
    Bytes16RoundTrip(LowHalf32(x >> 16));
    HalvesJoin32(x);
  }

  lemma Bytes64RoundTrip(x: u64)
    ensures Word64(Bytes64(x)) == x
  {
    var b := Bytes64(x);
    assert b[..4] == Bytes32(LowHalf64(x));
    assert b[4..] == Bytes32(LowHalf64(x >> 32));
    Bytes32RoundTrip(LowHalf64(x));
    Bytes32RoundTrip(LowHalf64(x >> 32));
    HalvesJoin64(x);
  }

  /** swap16: the two bytes exchanged. */
  function Swap16(x: u16): (r: u16)
    ensures Bytes16(r) == Reversed(Bytes16(x))
  {
    (x >> 8) | (x << 8)
  }

  /**
   * swap32: swap16 of the low half moved up, or-ed with swap16 of the high
   * half (the or of the two shifted halves is `Join32`).
   */
  function Swap32(x: u32): (r: u32)
    ensures Bytes32(r) == Reversed(Bytes32(x))
  {
    var lo := Swap16(LowHalf32(x));
    var hi := Swap16(LowHalf32(x >> 16));
    Join32Halves(hi, lo);
    ReversedAppend(Bytes16(LowHalf32(x)), Bytes16(LowHalf32(x >> 16)));
    Join32(hi, lo)
  }

  /** swap64: swap32 of the low half moved up, or-ed with swap32 of the high half. */
  function Swap64(x: u64): (r: u64)
    ensures Bytes64(r) == Reversed(Bytes64(x))
  {
    var lo := Swap32(LowHalf64(x));
    var hi := Swap32(LowHalf64(x >> 32));
    Join64Halves(hi, lo);
    ReversedAppend(Bytes32(LowHalf64(x)), Bytes32(LowHalf64(x >> 32)));
    Join64(hi, lo)
  }

  lemma ReversedAppend<T>(a: seq<T>, b: seq<T>)
    ensures Reversed(a + b) == Reversed(b) + Reversed(a)
  {
  }

  /** Reversing the bytes twice gives the word back. */
  lemma Swap16Involution(x: u16)
    ensures Swap16(Swap16(x)) == x
  {
    ReversedTwice(Bytes16(x));
    Bytes16RoundTrip(Swap16(Swap16(x)));
    Bytes16RoundTrip(x);
  }

  lemma Swap32Involution(x: u32)
    ensures Swap32(Swap32(x)) == x
  {
    ReversedTwice(Bytes32(x));
    Bytes32RoundTrip(Swap32(Swap32(x)));
    Bytes32RoundTrip(x);
  }

  lemma Swap64Involution(x: u64)
    ensures Swap64(Swap64(x)) == x
  {
    ReversedTwice(Bytes64(x));
    Bytes64RoundTrip(Swap64(Swap64(x)));
    Bytes64RoundTrip(x);
  }

  lemma ReversedTwice<T>(s: seq<T>)
    ensures Reversed(Reversed(s)) == s
  {
  }

  /**
   * The pointer overloads read the word at `p` in host (little-endian)
   * order and swap it: the result is the bytes at `p` read most
   * significant first.
   */
  function Swap16At(mem: seq<u8>, p: nat): (r: u16)
    requires p + 2 <= |mem|
    ensures Bytes16(r) == Reversed(mem[p..p + 2])
  {
    Bytes16RoundTripBack(mem[p..p + 2]);
    Swap16(Word16(mem[p..p + 2]))
  }

  function Swap32At(mem: seq<u8>, p: nat): (r: u32)
    requires p + 4 <= |mem|
    ensures Bytes32(r) == Reversed(mem[p..p + 4])
  {
    Bytes32RoundTripBack(mem[p..p + 4]);
    Swap32(Word32(mem[p..p + 4]))
  }

  function Swap64At(mem: seq<u8>, p: nat): (r: u64)
    requires p + 8 <= |mem|
    ensures Bytes64(r) == Reversed(mem[p..p + 8])
  {
    Bytes64RoundTripBack(mem[p..p + 8]);
    Swap64(Word64(mem[p..p + 8]))
  }

  /** Reading bytes as a word and splitting it again gives the bytes back. */
  lemma Bytes16RoundTripBack(b: seq<u8>)
    requires |b| == 2
    ensures Bytes16(Word16(b)) == b
  {
  }

  lemma Bytes32RoundTripBack(b: seq<u8>)
    requires |b| == 4
    ensures Bytes32(Word32(b)) == b
  {
    Bytes16RoundTripBack(b[..2]);
    Bytes16RoundTripBack(b[2..]);
    Join32Halves(Word16(b[..2]), Word16(b[2..]));
    assert b == b[..2] + b[2..];
  }

  lemma Bytes64RoundTripBack(b: seq<u8>)
    requires |b| == 8
    ensures Bytes64(Word64(b)) == b
  {
    Bytes32RoundTripBack(b[..4]);
    Bytes32RoundTripBack(b[4..]);
    Join64Halves(Word32(b[..4]), Word32(b[4..]));
    assert b == b[..4] + b[4..];
  }
}
