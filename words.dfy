// Shared vocabulary: 32-bit machine words as the C++ code sees them, both
// as bit vectors (for masks and shifts) and as numbers reduced modulo 2^32
// (for counters and address arithmetic; an int32 is the same 32 bits read
// as two's complement), and an Option for the source's null pointers and
// failed lookups.
module Words {
  type u8 = bv8
  type u16 = bv16
  type u32 = bv32
  type u64 = bv64

  /** The C++ truncating casts to a narrower unsigned type. */
  function LowByte16(x: u16): u8 { (x & 0xFF) as u8 }
  function LowByte32(x: u32): u8 { (x & 0xFF) as u8 }
  function LowByte64(x: u64): u8 { (x & 0xFF) as u8 }
  function LowHalf32(x: u32): u16 { (x & 0xFFFF) as u16 }
  function LowHalf64(x: u64): u32 { (x & 0xFFFF_FFFF) as u32 }

  /** A uint32 as a number, for code that does address arithmetic. */
  type uint32 = x: int | 0 <= x < 0x1_0000_0000

  /**
   * Conversion of an integer to uint32: arithmetic modulo 2^32, written as
   * adding or removing 2^32 until the value is in range (Wrap32IsMod gives
   * the closed form).
   */
  function Wrap32(x: int): uint32
    decreases if x < 0 then 0x1_0000_0000 - x else x
  {
    if x < 0 then Wrap32(x + 0x1_0000_0000)
    else if x < 0x1_0000_0000 then x
    else Wrap32(x - 0x1_0000_0000)
  }

  /** How many times 2^32 Wrap32 takes away (a negative count when it adds). */
  function Quot32(x: int): (q: int)
    ensures x == q * 0x1_0000_0000 + Wrap32(x)
    decreases if x < 0 then 0x1_0000_0000 - x else x
  {
    if x < 0 then Quot32(x + 0x1_0000_0000) - 1
    else if x < 0x1_0000_0000 then 0
    else Quot32(x - 0x1_0000_0000) + 1
  }

  /** An int32 as a number. */
  type int32 = x: int | -0x8000_0000 <= x < 0x8000_0000

  /** Conversion of an integer to int32: the low 32 bits read as two's complement. */
  function WrapS32(x: int): int32
  {
    var w := Wrap32(x);
    if w >= 0x8000_0000 then w - 0x1_0000_0000 else w
  }

  /** How many times 2^32 WrapS32 takes away. */
  function QuotS32(x: int): (q: int)
    ensures x == q * 0x1_0000_0000 + WrapS32(x)
  {
    if Wrap32(x) >= 0x8000_0000 then Quot32(x) + 1 else Quot32(x)
  }

  /** Adding or removing 2^32 once does not change the residue. */
  lemma Wrap32Step(x: int)
    ensures Wrap32(x + 0x1_0000_0000) == Wrap32(x) && Wrap32(x - 0x1_0000_0000) == Wrap32(x)
  {
  }

  /** Adding any multiple of 2^32 does not change the residue. */
  lemma {:induction false} Wrap32Periodic(x: int, k: int)
    ensures Wrap32(x + k * 0x1_0000_0000) == Wrap32(x)
    decreases if k < 0 then -k else k
  {
    if k > 0 {
      Wrap32Periodic(x, k - 1);
      Wrap32Step(x + (k - 1) * 0x1_0000_0000);
    } else if k < 0 {
      Wrap32Periodic(x, k + 1);
      Wrap32Step(x + (k + 1) * 0x1_0000_0000);
    }
  }

  /** The residue is the remainder of any decomposition `q * 2^32 + r` with r in range. */
  lemma Wrap32Unique(x: int, q: int, r: int)
    requires x == q * 0x1_0000_0000 + r && 0 <= r < 0x1_0000_0000
    ensures Wrap32(x) == r
  {
    Wrap32Periodic(r, q);
  }

  /** Wrap32 is Dafny's (Euclidean) remainder modulo 2^32. */
  lemma Wrap32IsMod(x: int)
    ensures Wrap32(x) == x % 0x1_0000_0000
  {
    Wrap32Unique(x, x / 0x1_0000_0000, x % 0x1_0000_0000);
  }

  /** A uint32 converts to itself. */
  lemma Wrap32Identity(x: uint32)
    ensures Wrap32(x) == x
  {
  }

  /** Reducing an operand first does not change a sum modulo 2^32. */
  lemma Wrap32Add(a: int, b: int)
    ensures Wrap32(Wrap32(a) + b) == Wrap32(a + b)
    ensures Wrap32(b - Wrap32(a)) == Wrap32(b - a)
  {
    var q := Quot32(a);
    Wrap32Periodic(a + b, -q);
    Wrap32Periodic(b - a, q);
  }

  /** An int32 converts to itself. */
  lemma WrapS32Identity(x: int32)
    ensures WrapS32(x) == x && WrapS32(x - 0) == x
  {
    if x < 0 {
      Wrap32Unique(x, -1, x + 0x1_0000_0000);
    }
  }

  /** The int32 conversion keeps the residue. */
  lemma WrapS32Residue(x: int)
    ensures Wrap32(WrapS32(x)) == Wrap32(x)
  {
    var w := Wrap32(x);
    if w >= 0x8000_0000 {
      Wrap32Unique(w as int - 0x1_0000_0000, -1, w);
    }
  }

  /** Numbers equal modulo 2^32 are the same int32. */
  lemma WrapS32Congruent(a: int, b: int)
    requires Wrap32(a) == Wrap32(b)
    ensures WrapS32(a) == WrapS32(b)
  {
  }

  /** Adding `k` leaves a number's residue alone exactly when `k` is a multiple of 2^32. */
  lemma Wrap32Shift(a: int, k: int)
    ensures Wrap32(a + k) == Wrap32(a) <==> Wrap32(k) == 0
  {
    var qa, qk := Quot32(a), Quot32(k);
    var ra, rk := Wrap32(a), Wrap32(k);
    assert a + k == (qa + qk) * 0x1_0000_0000 + (ra + rk);
    if ra + rk < 0x1_0000_0000 {
      Wrap32Unique(a + k, qa + qk, ra + rk);
    } else {
      Wrap32Unique(a + k, qa + qk + 1, ra + rk - 0x1_0000_0000);
    }
  }

  /** Reducing an operand to int32 first does not change a sum modulo 2^32. */
  lemma WrapS32Add(a: int, b: int)
    ensures Wrap32(WrapS32(a) + b) == Wrap32(a + b)
    ensures Wrap32(b - WrapS32(a)) == Wrap32(b - a)
  {
    WrapS32Residue(a);
    Wrap32Add(WrapS32(a), b);
    Wrap32Add(a, b);
  }

  datatype Option<T> = None | Some(value: T)

  /** `x < 0` for an int32 holding the bits of `x`. */
  predicate IsNegative(x: u32) { x & 0x8000_0000 != 0 }
}
