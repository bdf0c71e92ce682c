// mednafen/masmem.h: the byte-order helpers (Load/Store ..._RBO and ..._LE)
// and MultiAccessSizeMem, the byte buffer read and written as 8-, 16-, 24-
// and 32-bit units.
//
// Host memory is a byte array. A "native" access of a 16- or 32-bit unit
// keeps its bytes in the host's order (`hostBigEndian`, the MSB_FIRST
// switch); Decode/Encode below say what a unit's bytes mean in either
// order, and every load and store is proved against them. The PowerPC
// byte-reversed instructions (lhbrx, lwbrx, sthbrx, stwbrx) compute the
// same values as the shift-and-or fallback that is modelled.
module MasMem {
  import opened Words
  import opened ByteSwap

  /** The value of a 16-bit unit whose bytes, in memory order, are `b`. */
  function Decode16(bigEndian: bool, b: seq<u8>): u16
    requires |b| == 2
  {
    if bigEndian then Word16(Reversed(b)) else Word16(b)
  }

  function Decode32(bigEndian: bool, b: seq<u8>): u32
    requires |b| == 4
  {
    if bigEndian then Word32(Reversed(b)) else Word32(b)
  }

  /** The bytes, in memory order, of the unit `v`. */
  function Encode16(bigEndian: bool, v: u16): (r: seq<u8>)
    ensures |r| == 2
  {
    if bigEndian then Reversed(Bytes16(v)) else Bytes16(v)
  }

  function Encode32(bigEndian: bool, v: u32): (r: seq<u8>)
    ensures |r| == 4
  {
    if bigEndian then Reversed(Bytes32(v)) else Bytes32(v)
  }

  /** Decoding what was encoded, in the same order, gives the unit back. */
  lemma Decode16Encode16(bigEndian: bool, v: u16)
    ensures Decode16(bigEndian, Encode16(bigEndian, v)) == v
  {
    ReversedTwice(Bytes16(v));
    Bytes16RoundTrip(v);
  }

  lemma Decode32Encode32(bigEndian: bool, v: u32)
    ensures Decode32(bigEndian, Encode32(bigEndian, v)) == v
  {
    ReversedTwice(Bytes32(v));
    Bytes32RoundTrip(v);
  }

  /** Encoding what was decoded, in the same order, gives the bytes back. */
  lemma Encode16Decode16(bigEndian: bool, b: seq<u8>)
    requires |b| == 2
    ensures Encode16(bigEndian, Decode16(bigEndian, b)) == b
  {
    ReversedTwice(b);
    Bytes16RoundTripBack(if bigEndian then Reversed(b) else b);
  }

  lemma Encode32Decode32(bigEndian: bool, b: seq<u8>)
    requires |b| == 4
    ensures Encode32(bigEndian, Decode32(bigEndian, b)) == b
  {
    ReversedTwice(b);
    Bytes32RoundTripBack(if bigEndian then Reversed(b) else b);
  }

  /** Swapping the bytes of a unit read in one order reads it in the other. */
  lemma SwapDecode16(bigEndian: bool, b: seq<u8>)
    requires |b| == 2
    ensures Swap16(Decode16(bigEndian, b)) == Decode16(!bigEndian, b)
  {
    var x := Decode16(bigEndian, b);
    SwapEncode16(!bigEndian, x);
    Encode16Decode16(bigEndian, b);
    Decode16Encode16(!bigEndian, Swap16(x));
  }

  lemma SwapDecode32(bigEndian: bool, b: seq<u8>)
    requires |b| == 4
    ensures Swap32(Decode32(bigEndian, b)) == Decode32(!bigEndian, b)
  {
    var x := Decode32(bigEndian, b);
    SwapEncode32(!bigEndian, x);
    Encode32Decode32(bigEndian, b);
    Decode32Encode32(!bigEndian, Swap32(x));
  }

  /** Storing a swapped unit in one order stores the unit in the other. */
  lemma SwapEncode16(bigEndian: bool, v: u16)
    ensures Encode16(bigEndian, Swap16(v)) == Encode16(!bigEndian, v)
  {
    ReversedTwice(Bytes16(v));
  }

  lemma SwapEncode32(bigEndian: bool, v: u32)
    ensures Encode32(bigEndian, Swap32(v)) == Encode32(!bigEndian, v)
  {
    ReversedTwice(Bytes32(v));
  }

  /** The shift-and-or of LoadU32_RBO and StoreU32_RBO is swap32. */
  lemma ReverseBytes32IsSwap(x: u32)
    ensures (x << 24) | ((x & 0xFF00) << 8) | ((x >> 8) & 0xFF00) | (x >> 24) == Swap32(x)
  {
  }

  /** The word ReadU24 assembles from three bytes has those bytes, then 0. */
  lemma Bytes24(b0: u8, b1: u8, b2: u8)
    ensures Bytes32((b0 as u32) | ((b1 as u32) << 8) | ((b2 as u32) << 16)) == [b0, b1, b2, 0]
  {
    var v := (b0 as u32) | ((b1 as u32) << 8) | ((b2 as u32) << 16);
    HalvesOf24(v, b0, b1, b2);
    assert Bytes16(LowHalf32(v)) == [b0, b1] by { BytesOfPair(b0, b1); }
    assert Bytes16(LowHalf32(v >> 16)) == [b2, 0];
  }

  lemma HalvesOf24(v: u32, b0: u8, b1: u8, b2: u8)
    requires v == (b0 as u32) | ((b1 as u32) << 8) | ((b2 as u32) << 16)
    ensures LowHalf32(v) == (b0 as u16) | ((b1 as u16) << 8)
    ensures LowHalf32(v >> 16) == b2 as u16
  {
  }

  lemma BytesOfPair(b0: u8, b1: u8)
    ensures Bytes16((b0 as u16) | ((b1 as u16) << 8)) == [b0, b1]
  {
  }

  /** `m` with the bytes `b` written at `p`. */
  function Put<T>(m: seq<T>, p: nat, b: seq<T>): (r: seq<T>)
    requires p + |b| <= |m|
    ensures |r| == |m| && r[p..p + |b|] == b
    ensures forall i :: 0 <= i < |m| && !(p <= i < p + |b|) ==> r[i] == m[i]
  {
    m[..p] + b + m[p + |b|..]
  }

  /** A native store: the unit's bytes in host order. */
  method StoreNative16(hostBigEndian: bool, a: array<u8>, p: nat, x: u16)
    requires p + 2 <= a.Length
    modifies a
    ensures a[..] == Put(old(a[..]), p, Encode16(hostBigEndian, x))
  {
    var b := Encode16(hostBigEndian, x);
    a[p] := b[0];
    a[p + 1] := b[1];
    assert a[..] == Put(old(a[..]), p, b);
  }

  method StoreNative32(hostBigEndian: bool, a: array<u8>, p: nat, x: u32)
    requires p + 4 <= a.Length
    modifies a
    ensures a[..] == Put(old(a[..]), p, Encode32(hostBigEndian, x))
  {
    var b := Encode32(hostBigEndian, x);
    a[p] := b[0];
    a[p + 1] := b[1];
    a[p + 2] := b[2];
    a[p + 3] := b[3];
    assert a[..] == Put(old(a[..]), p, b);
  }

  /** LoadU16_RBO: the unit at `p` read in the order opposite to the host's. */
  function LoadU16Rbo(hostBigEndian: bool, m: seq<u8>, p: nat): (r: u16)
    requires p + 2 <= |m|
    ensures r == Decode16(!hostBigEndian, m[p..p + 2])
  {
    var tmp := Decode16(hostBigEndian, m[p..p + 2]);
    SwapDecode16(hostBigEndian, m[p..p + 2]);
    (tmp << 8) | (tmp >> 8)
  }

  /** LoadU32_RBO. */
  function LoadU32Rbo(hostBigEndian: bool, m: seq<u8>, p: nat): (r: u32)
    requires p + 4 <= |m|
    ensures r == Decode32(!hostBigEndian, m[p..p + 4])
  {
    var tmp := Decode32(hostBigEndian, m[p..p + 4]);
    SwapDecode32(hostBigEndian, m[p..p + 4]);
    ReverseBytes32IsSwap(tmp);
    (tmp << 24) | ((tmp & 0xFF00) << 8) | ((tmp >> 8) & 0xFF00) | (tmp >> 24)
  }

  /** StoreU16_RBO: `v` stored in the order opposite to the host's. */
  method StoreU16Rbo(hostBigEndian: bool, a: array<u8>, p: nat, v: u16)
    requires p + 2 <= a.Length
    modifies a
    ensures a[..] == Put(old(a[..]), p, Encode16(!hostBigEndian, v))
  {
    var tmp := (v << 8) | (v >> 8);
    SwapEncode16(hostBigEndian, v);
    StoreNative16(hostBigEndian, a, p, tmp);
  }

  /** StoreU32_RBO. */
  method StoreU32Rbo(hostBigEndian: bool, a: array<u8>, p: nat, v: u32)
    requires p + 4 <= a.Length
    modifies a
    ensures a[..] == Put(old(a[..]), p, Encode32(!hostBigEndian, v))
  {
    var tmp := (v << 24) | ((v & 0xFF00) << 8) | ((v >> 8) & 0xFF00) | (v >> 24);
    ReverseBytes32IsSwap(v);
    SwapEncode32(hostBigEndian, v);
    StoreNative32(hostBigEndian, a, p, tmp);
  }

  /** LoadU16_LE: little-endian on either host. */
  function LoadU16Le(hostBigEndian: bool, m: seq<u8>, p: nat): (r: u16)
    requires p + 2 <= |m|
    ensures r == Word16(m[p..p + 2])
  {
    if hostBigEndian then LoadU16Rbo(hostBigEndian, m, p) else Decode16(hostBigEndian, m[p..p + 2])
  }

  /** LoadU32_LE. */
  function LoadU32Le(hostBigEndian: bool, m: seq<u8>, p: nat): (r: u32)
    requires p + 4 <= |m|
    ensures r == Word32(m[p..p + 4])
  {
    if hostBigEndian then LoadU32Rbo(hostBigEndian, m, p) else Decode32(hostBigEndian, m[p..p + 4])
  }

  /** StoreU16_LE: the bytes of `v`, least significant first, on either host. */
  method StoreU16Le(hostBigEndian: bool, a: array<u8>, p: nat, v: u16)
    requires p + 2 <= a.Length
    modifies a
    ensures a[..] == Put(old(a[..]), p, Bytes16(v))
  {
    if hostBigEndian {
      StoreU16Rbo(hostBigEndian, a, p, v);
    } else {
      StoreNative16(hostBigEndian, a, p, v);
    }
  }

  /** StoreU32_LE. */
  method StoreU32Le(hostBigEndian: bool, a: array<u8>, p: nat, v: u32)
    requires p + 4 <= a.Length
    modifies a
    ensures a[..] == Put(old(a[..]), p, Bytes32(v))
  {
    if hostBigEndian {
      StoreU32Rbo(hostBigEndian, a, p, v);
    } else {
      StoreNative32(hostBigEndian, a, p, v);
    }
  }

  /** Loading with the helper that matches the store gives the stored unit back. */
  lemma LoadU16RboAfterStore(hostBigEndian: bool, m: seq<u8>, p: nat, v: u16)
    requires p + 2 <= |m|
    ensures LoadU16Rbo(hostBigEndian, Put(m, p, Encode16(!hostBigEndian, v)), p) == v
  {
    Decode16Encode16(!hostBigEndian, v);
  }

  lemma LoadU32RboAfterStore(hostBigEndian: bool, m: seq<u8>, p: nat, v: u32)
    requires p + 4 <= |m|
    ensures LoadU32Rbo(hostBigEndian, Put(m, p, Encode32(!hostBigEndian, v)), p) == v
  {
    Decode32Encode32(!hostBigEndian, v);
  }

  lemma LoadU16LeAfterStore(hostBigEndian: bool, m: seq<u8>, p: nat, v: u16)
    requires p + 2 <= |m|
    ensures LoadU16Le(hostBigEndian, Put(m, p, Bytes16(v)), p) == v
  {
    Bytes16RoundTrip(v);
  }

  lemma LoadU32LeAfterStore(hostBigEndian: bool, m: seq<u8>, p: nat, v: u32)
    requires p + 4 <= |m|
    ensures LoadU32Le(hostBigEndian, Put(m, p, Bytes32(v)), p) == v
  {
    Bytes32RoundTrip(v);
  }

  /**
   * The number of bytes the generic Read/Write touch for a type of
   * `sizeOf` bytes: 4 and 2 have their own accessors, anything else goes
   * through the 8-bit one.
   */
  function UnitBytes(sizeOf: nat): (n: nat)
    ensures n == 1 || n == 2 || n == 4
  {
    if sizeOf == 4 then 4 else if sizeOf == 2 then 2 else 1
  }

  /** The value Read<T> returns, zero-extended, from the unit's bytes. */
  function DecodeUnit(bigEndian: bool, sizeOf: nat, b: seq<u8>): u64
    requires |b| == UnitBytes(sizeOf)
  {
    if sizeOf == 4 then Decode32(bigEndian, b) as u64
    else if sizeOf == 2 then Decode16(bigEndian, b) as u64
    else b[0] as u64
  }

  /** The bytes Write<T> stores for `v`. */
  function EncodeUnit(bigEndian: bool, sizeOf: nat, v: u64): (r: seq<u8>)
    ensures |r| == UnitBytes(sizeOf)
  {
    if sizeOf == 4 then Encode32(bigEndian, LowHalf64(v))
    else if sizeOf == 2 then Encode16(bigEndian, LowHalf32(LowHalf64(v)))
    else [LowByte64(v)]
  }

  /** `v` cut down to the bytes the accessor for `sizeOf` keeps. */
  function Truncated(sizeOf: nat, v: u64): u64
  {
    if sizeOf == 4 then v & 0xFFFF_FFFF
    else if sizeOf == 2 then v & 0xFFFF
    else v & 0xFF
  }

  /** Read<T> after Write<T> returns the written value, cut to the accessor's width. */
  lemma DecodeEncodeUnit(bigEndian: bool, sizeOf: nat, v: u64)
    ensures DecodeUnit(bigEndian, sizeOf, EncodeUnit(bigEndian, sizeOf, v)) == Truncated(sizeOf, v)
  {
    if sizeOf == 4 {
      Decode32Encode32(bigEndian, LowHalf64(v));
    } else if sizeOf == 2 {
      Decode16Encode16(bigEndian, LowHalf32(LowHalf64(v)));
    }
  }

  /**
   * A 64-bit type is not one of the sizes Read/Write dispatch on, so an
   * 8-byte value goes through the 8-bit accessor and comes back as its
   * low byte.
   */
  lemma SixtyFourBitsKeepOneByte()
    ensures DecodeUnit(false, 8, EncodeUnit(false, 8, 0x0102_0304_0506_0708)) == 0x08
  {
    DecodeEncodeUnit(false, 8, 0x0102_0304_0506_0708);
  }

  /**
   * A MultiAccessSizeMem<size, max_unit_type, big_endian>: `data8` is the
   * union of data8, data16 and data32, addressed by byte. The unit order is
   * `bigEndian`; the host's is `hostBigEndian`.
   */
  class MultiAccessSizeMem {
    const size: nat
    const bigEndian: bool
    const hostBigEndian: bool
    const data8: array<u8>

    predicate Valid()
    {
      data8.Length == size
    }

    /** `new MultiAccessSizeMem<...>()`: value-initialised, every byte 0. */
    constructor(size: nat, bigEndian: bool, hostBigEndian: bool)
      ensures Valid() && fresh(data8)
      ensures this.size == size && this.bigEndian == bigEndian && this.hostBigEndian == hostBigEndian
      ensures forall i :: 0 <= i < size ==> data8[i] == 0
    {
      this.size := size;
      this.bigEndian := bigEndian;
      this.hostBigEndian := hostBigEndian;
      data8 := new u8[size](_ => 0);
    }

    function ReadU8(address: nat): (r: u8)
      requires Valid() && address < size
      reads data8
      ensures [r] == data8[..][address..address + 1]
    {
      data8[address]
    }

    /** ReadU16: native when the unit order is the host's, byte-reversed otherwise. */
    function ReadU16(address: nat): (r: u16)
      requires Valid() && address + 2 <= size
      reads data8
      ensures r == Decode16(bigEndian, data8[..][address..address + 2])
    {
      if hostBigEndian == bigEndian then Decode16(hostBigEndian, data8[..][address..address + 2])
      else LoadU16Rbo(hostBigEndian, data8[..], address)
    }

    function ReadU32(address: nat): (r: u32)
      requires Valid() && address + 4 <= size
      reads data8
      ensures r == Decode32(bigEndian, data8[..][address..address + 4])
    {
      if hostBigEndian == bigEndian then Decode32(hostBigEndian, data8[..][address..address + 4])
      else LoadU32Rbo(hostBigEndian, data8[..], address)
    }

    /**
     * ReadU24: three bytes, least significant first. A big-endian instance
     * leaves the result uninitialised, modelled as None.
     */
    function ReadU24(address: nat): (r: Option<u32>)
      requires Valid() && address + 3 <= size
      reads data8
      ensures r.Some? <==> !bigEndian
      ensures r.Some? ==> Bytes32(r.value) == data8[..][address..address + 3] + [0]
    {
      if !bigEndian then
        var v := (ReadU8(address) as u32) | ((ReadU8(address + 1) as u32) << 8) | ((ReadU8(address + 2) as u32) << 16);
        Bytes24(ReadU8(address), ReadU8(address + 1), ReadU8(address + 2));
        Some(v)
      else
        None
    }

    method WriteU8(address: nat, value: u8)
      requires Valid() && address < size
      modifies data8
      ensures data8[..] == Put(old(data8[..]), address, [value])
    {
      data8[address] := value;
      assert data8[..] == Put(old(data8[..]), address, [value]);
    }

    method WriteU16(address: nat, value: u16)
      requires Valid() && address + 2 <= size
      modifies data8
      ensures data8[..] == Put(old(data8[..]), address, Encode16(bigEndian, value))
    {
      if hostBigEndian == bigEndian {
        StoreNative16(hostBigEndian, data8, address, value);
      } else {
        StoreU16Rbo(hostBigEndian, data8, address, value);
      }
    }

    method WriteU32(address: nat, value: u32)
      requires Valid() && address + 4 <= size
      modifies data8
      ensures data8[..] == Put(old(data8[..]), address, Encode32(bigEndian, value))
    {
      if hostBigEndian == bigEndian {
        StoreNative32(hostBigEndian, data8, address, value);
      } else {
        StoreU32Rbo(hostBigEndian, data8, address, value);
      }
    }

    /** WriteU24: the low three bytes, least significant first; a big-endian instance writes nothing. */
    method WriteU24(address: nat, value: u32)
      requires Valid() && address + 3 <= size
      modifies data8
      ensures !bigEndian ==> data8[..] == Put(old(data8[..]), address, Bytes32(value)[..3])
      ensures bigEndian ==> data8[..] == old(data8[..])
    {
      if !bigEndian {
        WriteU8(address + 0, LowByte32(value >> 0));
        WriteU8(address + 1, LowByte32(value >> 8));
        WriteU8(address + 2, LowByte32(value >> 16));
        assert data8[..] == Put(old(data8[..]), address, Bytes32(value)[..3]);
      }
    }

    /** Read<T> for a type of `sizeOf` bytes, zero-extended. */
    function Read(address: nat, sizeOf: nat): (r: u64)
      requires Valid() && address + UnitBytes(sizeOf) <= size
      reads data8
      ensures r == DecodeUnit(bigEndian, sizeOf, data8[..][address..address + UnitBytes(sizeOf)])
    {
      if sizeOf == 4 then ReadU32(address) as u64
      else if sizeOf == 2 then ReadU16(address) as u64
      else ReadU8(address) as u64
    }

    /** Write<T> for a type of `sizeOf` bytes. */
    method Write(address: nat, sizeOf: nat, value: u64)
      requires Valid() && address + UnitBytes(sizeOf) <= size
      modifies data8
      ensures data8[..] == Put(old(data8[..]), address, EncodeUnit(bigEndian, sizeOf, value))
      ensures Read(address, sizeOf) == Truncated(sizeOf, value)
    {
      if sizeOf == 4 {
        WriteU32(address, LowHalf64(value));
      } else if sizeOf == 2 {
        WriteU16(address, LowHalf32(LowHalf64(value)));
      } else {
        WriteU8(address, LowByte64(value));
      }
      DecodeEncodeUnit(bigEndian, sizeOf, value);
    }
  }
}
