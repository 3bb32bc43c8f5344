// Bytes and fixed-width unsigned integers as they appear on the wire, with the
// big- and little-endian field codecs that every Songcast format uses.
module Octets {

  newtype Byte = x: int | 0 <= x < 0x100

  type U16 = x: int | 0 <= x < 0x1_0000
  type U32 = x: int | 0 <= x < 0x1_0000_0000
  type U64 = x: int | 0 <= x < 0x1_0000_0000_0000_0000

  /** Truncation to 8 bits, the effect of a cast to an unsigned 8-bit type. */
  function Trunc8(x: int): (r: Byte)
    ensures x >= 0 && x < 0x100 ==> r as int == x
  {
    (x % 0x100) as Byte
  }

  /** Truncation to 16 bits. */
  function Trunc16(x: int): (r: U16)
    ensures x >= 0 && x < 0x1_0000 ==> r == x
  {
    x % 0x1_0000
  }

  /** Truncation to 32 bits, the effect of unsigned 32-bit wrap-around. */
  function Trunc32(x: int): (r: U32)
    ensures x >= 0 && x < 0x1_0000_0000 ==> r == x
  {
    x % 0x1_0000_0000
  }

  /** Truncation to 64 bits. */
  function Trunc64(x: int): (r: U64)
    ensures x >= 0 && x < 0x1_0000_0000_0000_0000 ==> r == x
  {
    x % 0x1_0000_0000_0000_0000
  }

  /** a - b in unsigned 32-bit arithmetic, written without %. */
  function Sub32(a: U32, b: U32): (r: U32)
  {
    if a >= b then a - b else a - b + 0x1_0000_0000
  }

  lemma Sub32Wraps(a: U32, b: U32)
    ensures Sub32(a, b) == Trunc32(a - b)
  {
    if a < b {
      assert a - b == -1 * 0x1_0000_0000 + Sub32(a, b);
    }
  }

  /** x + 1 in unsigned 32-bit arithmetic: the largest value wraps to 0. */
  function Inc32(x: U32): (r: U32)
  {
    if x == 0xFFFF_FFFF then 0 else x + 1
  }

  lemma Inc32Wraps(x: U32)
    ensures Inc32(x) == Trunc32(x + 1)
  {
  }

  /** k·d is at least d for a positive multiplier k. */
  lemma {:induction false} MulAtLeast(k: nat, d: nat)
    requires k >= 1
    ensures k * d >= d
    decreases k
  {
    if k > 1 {
      MulAtLeast(k - 1, d);
      assert k * d == (k - 1) * d + d;
    }
  }

  /** A quotient and remainder below the divisor determine n / d and
      n % d. */
  lemma DivisionUnique(n: int, d: nat, q: int, r: int)
    requires d > 0 && 0 <= r < d && n == q * d + r
    ensures n / d == q && n % d == r
  {
    var q', r' := n / d, n % d;
    assert n == q' * d + r';
    assert q' * d - q * d == (q' - q) * d;
    if q' > q {
      MulAtLeast(q' - q, d);
      assert false;
    } else if q' < q {
      MulAtLeast(q - q', d);
      assert false;
    }
  }

  /** n zero bytes: silence, or a cleared buffer. */
  function Zeros(n: nat): (r: seq<Byte>)
    ensures |r| == n && forall i :: 0 <= i < n ==> r[i] == 0
  {
    seq(n, i => 0 as Byte)
  }

  function Hi8(x: U16): Byte { (x / 0x100) as Byte }
  function Lo8(x: U16): Byte { (x % 0x100) as Byte }

  /** The two bytes of x, most significant first (network order). */
  function EncodeBe16(x: U16): (s: seq<Byte>)
    ensures |s| == 2 && s[0] as int * 0x100 + s[1] as int == x
  {
    [Hi8(x), Lo8(x)]
  }

  /** The four bytes of x, most significant first (network order). */
  function EncodeBe32(x: U32): (s: seq<Byte>)
    ensures |s| == 4
    ensures ((s[0] as int * 0x100 + s[1] as int) * 0x100 + s[2] as int) * 0x100 + s[3] as int == x
  {
    EncodeBe16(x / 0x1_0000) + EncodeBe16(x % 0x1_0000)
  }

  /** The big-endian 16-bit value stored at s[at..at+2]. */
  function DecodeBe16(s: seq<Byte>, at: nat): (x: U16)
    requires at + 2 <= |s|
  {
    s[at] as int * 0x100 + s[at + 1] as int
  }

  /** The big-endian 32-bit value stored at s[at..at+4]. */
  function DecodeBe32(s: seq<Byte>, at: nat): (x: U32)
    requires at + 4 <= |s|
  {
    DecodeBe16(s, at) * 0x1_0000 + DecodeBe16(s, at + 2)
  }

  /** The little-endian 16-bit value stored at s[at..at+2]. */
  function DecodeLe16(s: seq<Byte>, at: nat): (x: U16)
    requires at + 2 <= |s|
  {
    s[at + 1] as int * 0x100 + s[at] as int
  }

  /** The little-endian 32-bit value stored at s[at..at+4]. */
  function DecodeLe32(s: seq<Byte>, at: nat): (x: U32)
    requires at + 4 <= |s|
  {
    DecodeLe16(s, at + 2) * 0x1_0000 + DecodeLe16(s, at)
  }

  /** The two bytes of x, least significant first. */
  function EncodeLe16(x: U16): (s: seq<Byte>)
    ensures |s| == 2
  {
    [Lo8(x), Hi8(x)]
  }

  /** The four bytes of x, least significant first. */
  function EncodeLe32(x: U32): (s: seq<Byte>)
    ensures |s| == 4
  {
    EncodeLe16(x % 0x1_0000) + EncodeLe16(x / 0x1_0000)
  }

  /** The eight bytes of x, most significant first. */
  function EncodeBe64(x: U64): (s: seq<Byte>)
    ensures |s| == 8
  {
    EncodeBe32(x / 0x1_0000_0000) + EncodeBe32(x % 0x1_0000_0000)
  }

  /** The big-endian 64-bit value stored at s[at..at+8]. */
  function DecodeBe64(s: seq<Byte>, at: nat): (x: U64)
    requires at + 8 <= |s|
  {
    DecodeBe32(s, at) * 0x1_0000_0000 + DecodeBe32(s, at + 4)
  }

  lemma Be16RoundTrip(x: U16, pre: seq<Byte>, post: seq<Byte>)
    ensures DecodeBe16(pre + EncodeBe16(x) + post, |pre|) == x
  {
    var s := pre + EncodeBe16(x) + post;
    assert s[|pre|] == Hi8(x) && s[|pre| + 1] == Lo8(x);
  }

  lemma Be32RoundTrip(x: U32, pre: seq<Byte>, post: seq<Byte>)
    ensures DecodeBe32(pre + EncodeBe32(x) + post, |pre|) == x
  {
    var s := pre + EncodeBe32(x) + post;
    var hi, lo := x / 0x1_0000, x % 0x1_0000;
    assert s == pre + EncodeBe16(hi) + (EncodeBe16(lo) + post);
    Be16RoundTrip(hi, pre, EncodeBe16(lo) + post);
    assert s == (pre + EncodeBe16(hi)) + EncodeBe16(lo) + post;
    Be16RoundTrip(lo, pre + EncodeBe16(hi), post);
  }

  lemma Le32RoundTrip(x: U32, pre: seq<Byte>, post: seq<Byte>)
    ensures DecodeLe32(pre + EncodeLe32(x) + post, |pre|) == x
  {
    var s := pre + EncodeLe32(x) + post;
    var n := |pre|;
    assert s[n] == Lo8(x % 0x1_0000) && s[n + 1] == Hi8(x % 0x1_0000);
    assert s[n + 2] == Lo8(x / 0x1_0000) && s[n + 3] == Hi8(x / 0x1_0000);
  }

  /** Decoding a big-endian field only looks at the bytes of that field. */
  lemma DecodeBe32Local(s: seq<Byte>, t: seq<Byte>, at: nat, at2: nat)
    requires at + 4 <= |s| && at2 + 4 <= |t|
    requires s[at..at + 4] == t[at2..at2 + 4]
    ensures DecodeBe32(s, at) == DecodeBe32(t, at2)
  {
    assert s[at] == s[at..at + 4][0] == t[at2];
    assert s[at + 1] == s[at..at + 4][1] == t[at2 + 1];
    assert s[at + 2] == s[at..at + 4][2] == t[at2 + 2];
    assert s[at + 3] == s[at..at + 4][3] == t[at2 + 3];
  }

  /** A big-endian field decodes to x wherever its four bytes are x's encoding. */
  lemma DecodeBe32At(s: seq<Byte>, at: nat, x: U32)
    requires at + 4 <= |s| && s[at..at + 4] == EncodeBe32(x)
    ensures DecodeBe32(s, at) == x
  {
    Be32RoundTrip(x, [], []);
    assert EncodeBe32(x) == [] + EncodeBe32(x) + [];
    DecodeBe32Local(s, EncodeBe32(x), at, 0);
  }

  lemma DecodeBe16At(s: seq<Byte>, at: nat, x: U16)
    requires at + 2 <= |s| && s[at..at + 2] == EncodeBe16(x)
    ensures DecodeBe16(s, at) == x
  {
    assert s[at] == s[at..at + 2][0] && s[at + 1] == s[at..at + 2][1];
  }

  lemma DecodeBe64At(s: seq<Byte>, at: nat, x: U64)
    requires at + 8 <= |s| && s[at..at + 8] == EncodeBe64(x)
    ensures DecodeBe64(s, at) == x
  {
    assert s[at..at + 4] == s[at..at + 8][..4] == EncodeBe32(x / 0x1_0000_0000);
    assert s[at + 4..at + 8] == s[at..at + 8][4..] == EncodeBe32(x % 0x1_0000_0000);
    DecodeBe32At(s, at, x / 0x1_0000_0000);
    DecodeBe32At(s, at + 4, x % 0x1_0000_0000);
  }

  /** The inverse of EncodeBe16: two bytes read back give the same bytes. */
  lemma EncodeDecodeBe16(s: seq<Byte>)
    requires |s| == 2
    ensures EncodeBe16(DecodeBe16(s, 0)) == s
  {
  }

  lemma EncodeDecodeBe32(s: seq<Byte>)
    requires |s| == 4
    ensures EncodeBe32(DecodeBe32(s, 0)) == s
  {
    var hi, lo := DecodeBe16(s, 0), DecodeBe16(s, 2);
    assert DecodeBe32(s, 0) / 0x1_0000 == hi && DecodeBe32(s, 0) % 0x1_0000 == lo;
    EncodeDecodeBe16(s[..2]);
    EncodeDecodeBe16(s[2..]);
  }

  /** The low n base-256 digits of x appended, least significant first,
      to the digits already in acc: a byte swap of an n-byte value when
      acc starts at 0. */
  function Reversed(x: nat, n: nat, acc: nat): nat
    decreases n
  {
    if n == 0 then acc else Reversed(x / 0x100, n - 1, acc * 0x100 + x % 0x100)
  }

  /** A 16-bit value with its two bytes exchanged. */
  function Swap16(x: U16): U16
  {
    Swap16Digits(x);
    Reversed(x, 2, 0)
  }

  /** A 32-bit value with its four bytes in reverse order. */
  function Swap32(x: U32): U32
  {
    Swap32Digits(x);
    Swap32ClosedInvolution(x);
    Reversed(x, 4, 0)
  }

  lemma Swap16Digits(x: U16)
    ensures Reversed(x, 2, 0) == x % 0x100 * 0x100 + x / 0x100
  {
    assert Reversed(x, 2, 0) == Reversed(x / 0x100, 1, x % 0x100);
    assert Reversed(x / 0x100, 1, x % 0x100) == Reversed(x / 0x1_0000, 0, x % 0x100 * 0x100 + x / 0x100 % 0x100);
  }

  /** The byte swap of a 32-bit value written out digit by digit. */
  function Swap32Closed(x: U32): nat
  {
    ((x % 0x100 * 0x100 + x / 0x100 % 0x100) * 0x100 + x / 0x1_0000 % 0x100) * 0x100 + x / 0x100_0000
  }

  lemma Swap32Digits(x: U32)
    ensures Reversed(x, 4, 0) == Swap32Closed(x)
  {
    var b0, b1, b2, b3 := x % 0x100, x / 0x100 % 0x100, x / 0x1_0000 % 0x100, x / 0x100_0000;
    assert x / 0x100 / 0x100 == x / 0x1_0000;
    assert x / 0x1_0000 / 0x100 == x / 0x100_0000;
    assert x / 0x100_0000 % 0x100 == b3;
    assert Reversed(x, 4, 0) == Reversed(x / 0x100, 3, b0);
    assert Reversed(x / 0x100, 3, b0) == Reversed(x / 0x1_0000, 2, b0 * 0x100 + b1);
    assert Reversed(x / 0x1_0000, 2, b0 * 0x100 + b1) == Reversed(x / 0x100_0000, 1, (b0 * 0x100 + b1) * 0x100 + b2);
    assert Reversed(x / 0x100_0000, 1, (b0 * 0x100 + b1) * 0x100 + b2)
        == Reversed(x / 0x100_0000 / 0x100, 0, ((b0 * 0x100 + b1) * 0x100 + b2) * 0x100 + b3);
  }

  lemma Swap32ClosedInvolution(x: U32)
    ensures Swap32Closed(x) < 0x1_0000_0000 && Swap32Closed(Swap32Closed(x)) == x
  {
    Digits32(x % 0x100, x / 0x100 % 0x100, x / 0x1_0000 % 0x100, x / 0x100_0000);
    Split32(x);
  }

  /** The four base-256 digits of a 32-bit value read back. */
  lemma Digits32(a: nat, b: nat, c: nat, d: nat)
    requires a < 0x100 && b < 0x100 && c < 0x100 && d < 0x100
    ensures var v := ((a * 0x100 + b) * 0x100 + c) * 0x100 + d;
      v % 0x100 == d && v / 0x100 % 0x100 == c && v / 0x1_0000 % 0x100 == b && v / 0x100_0000 == a
  {
    var v := ((a * 0x100 + b) * 0x100 + c) * 0x100 + d;
    assert v == (a * 0x100 + b) * 0x1_0000 + c * 0x100 + d;
    assert v == a * 0x100_0000 + b * 0x1_0000 + c * 0x100 + d;
    assert v / 0x100 == (a * 0x100 + b) * 0x100 + c;
    assert v / 0x1_0000 == a * 0x100 + b;
  }

  /** x is its four digits, most significant first. */
  lemma Split32(x: U32)
    ensures x == ((x / 0x100_0000 * 0x100 + x / 0x1_0000 % 0x100) * 0x100 + x / 0x100 % 0x100) * 0x100 + x % 0x100
  {
  }

  lemma Swap16Bytes(x: U16)
    ensures EncodeBe16(Swap16(x)) == [Lo8(x), Hi8(x)]
  {
    Swap16Digits(x);
  }

  lemma Swap32Bytes(x: U32)
    ensures var b := EncodeBe32(x); EncodeBe32(Swap32(x)) == [b[3], b[2], b[1], b[0]]
  {
    Swap32Digits(x);
    Swap32ClosedBytes(x);
  }

  lemma Swap32ClosedBytes(x: U32)
    ensures Swap32Closed(x) < 0x1_0000_0000
    ensures var b := EncodeBe32(x); EncodeBe32(Swap32Closed(x)) == [b[3], b[2], b[1], b[0]]
  {
    var b0, b1, b2, b3 := x % 0x100, x / 0x100 % 0x100, x / 0x1_0000 % 0x100, x / 0x100_0000;
    Digits32(b0, b1, b2, b3);
    Be32Digits(x);
    Be32Digits(Swap32Closed(x));
  }

  /** Byte-reversing the number with base-256 digits a b c d gives the
      number with digits d c b a. */
  lemma Swap32OfDigits(x: U32, a: nat, b: nat, c: nat, d: nat)
    requires a < 0x100 && b < 0x100 && c < 0x100 && d < 0x100
    requires x == ((a * 0x100 + b) * 0x100 + c) * 0x100 + d
    ensures Swap32(x) == ((d * 0x100 + c) * 0x100 + b) * 0x100 + a
  {
    Digits32(a, b, c, d);
    Swap32Digits(x);
  }

  /** The four bytes EncodeBe32 gives are the base-256 digits of x. */
  lemma Be32Digits(x: U32)
    ensures EncodeBe32(x) == [(x / 0x100_0000) as Byte, (x / 0x1_0000 % 0x100) as Byte,
                              (x / 0x100 % 0x100) as Byte, (x % 0x100) as Byte]
  {
    var s := EncodeBe32(x);
    Digits32(s[0] as int, s[1] as int, s[2] as int, s[3] as int);
  }

  /** Swapping twice gives the value back. */
  lemma {:induction false} Swap16Involution(x: U16)
    ensures Swap16(Swap16(x)) == x
  {
    Swap16Digits(x);
    Swap16Digits(Swap16(x));
  }

  lemma {:induction false} Swap32Involution(x: U32)
    ensures Swap32(Swap32(x)) == x
  {
    Swap32Digits(x);
    Swap32ClosedInvolution(x);
    Swap32Digits(Swap32(x));
  }
}
