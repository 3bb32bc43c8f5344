// Arch: host/network byte-order helpers for a little-endian host. The
// BigEndian conversions reverse the bytes of a value; the LittleEndian ones
// leave it alone.
module Arch {
  /** Byte k (0 = least significant) of a 32-bit value. */
  function Byte32(x: bv32, k: nat): bv32
    requires k < 4
  {
    if k == 0 then x & 0xFF
    else if k == 1 then (x >> 8) & 0xFF
    else if k == 2 then (x >> 16) & 0xFF
    else x >> 24
  }

  /** SwapEndian16 truncated to 16 bits, as BigEndian2 does. */
  function BigEndian2(x: bv16): (r: bv16)
    ensures r & 0xFF == x >> 8 && r >> 8 == x & 0xFF
  {
    (x >> 8) | (x << 8)
  }

  /** SwapEndian32: the four bytes of x in reverse order. */
  function BigEndian4(x: bv32): (r: bv32)
    ensures Byte32(r, 0) == Byte32(x, 3) && Byte32(r, 1) == Byte32(x, 2)
    ensures Byte32(r, 2) == Byte32(x, 1) && Byte32(r, 3) == Byte32(x, 0)
  {
    ((x & 0xFF) << 24) | ((x & 0xFF00) << 8) | ((x & 0xFF0000) >> 8) | ((x & 0xFF000000) >> 24)
  }

  /** BigEndian8: the swapped low word becomes the high word and the swapped
      high word becomes the low word. */
  function BigEndian8(x: bv64): (r: bv64)
    ensures (r >> 32) as bv32 == BigEndian4((x & 0xFFFF_FFFF) as bv32)
    ensures (r & 0xFFFF_FFFF) as bv32 == BigEndian4((x >> 32) as bv32)
  {
    ((BigEndian4((x & 0xFFFF_FFFF) as bv32) as bv64) << 32) | (BigEndian4((x >> 32) as bv32) as bv64)
  }

  function LittleEndian2(x: bv16): bv16 { x }
  function LittleEndian4(x: bv32): bv32 { x }
  function LittleEndian8(x: bv64): bv64 { x }

  lemma BigEndian2Involution(x: bv16)
    ensures BigEndian2(BigEndian2(x)) == x
  {
  }

  lemma BigEndian4Involution(x: bv32)
    ensures BigEndian4(BigEndian4(x)) == x
  {
  }

  lemma BigEndian8Involution(x: bv64)
    ensures BigEndian8(BigEndian8(x)) == x
  {
    var lo, hi := (x & 0xFFFF_FFFF) as bv32, (x >> 32) as bv32;
    BigEndian4Involution(lo);
    BigEndian4Involution(hi);
  }

  /** The little-endian host's in-memory bytes of a 32-bit value, lowest
      address first. */
  function MemoryBytes32(x: bv32): (s: seq<bv8>)
    ensures |s| == 4
  {
    [(x & 0xFF) as bv8, ((x >> 8) & 0xFF) as bv8, ((x >> 16) & 0xFF) as bv8, (x >> 24) as bv8]
  }

  /** What the conversion is for: storing BigEndian4(x) on a little-endian
      host lays x out most significant byte first (network order). */
  lemma BigEndian4IsNetworkOrder(x: bv32)
    ensures MemoryBytes32(BigEndian4(x))
         == [(x >> 24) as bv8, ((x >> 16) & 0xFF) as bv8, ((x >> 8) & 0xFF) as bv8, (x & 0xFF) as bv8]
  {
  }

  /** The LittleEndian conversions are the identity on a little-endian host. */
  lemma LittleEndianIdentity(a: bv16, b: bv32, c: bv64)
    ensures LittleEndian2(a) == a && LittleEndian4(b) == b && LittleEndian8(c) == c
    ensures BigEndian4(LittleEndian4(b)) == BigEndian4(b)
  {
  }
}
