// Brx (read-only byte buffer), Bwx (bounded writable byte buffer) and the
// BufferCmp ordering of the driver-side OpenHome buffer classes.
module Buffer {
  import opened Octets

  /** memcmp over the first n bytes: 0 when they agree, otherwise the sign of
      the first differing byte pair. */
  function MemCmp(p: seq<Byte>, q: seq<Byte>, n: nat): (r: int)
    requires n <= |p| && n <= |q|
    ensures r == 0 <==> p[..n] == q[..n]
    decreases n
  {
    if n == 0 then 0
    else if p[0] != q[0] then p[0] as int - q[0] as int
    else
      var rest := MemCmp(p[1..], q[1..], n - 1);
      assert p[..n] == [p[0]] + p[1..][..n - 1];
      assert q[..n] == [q[0]] + q[1..][..n - 1];
      rest
  }

  /** Brx::Equals: same length, then memcmp of all bytes. */
  function Equals(a: seq<Byte>, b: seq<Byte>): (r: bool)
    ensures r <==> a == b
  {
    if |a| == |b| then
      assert a == a[..|a|] && b == b[..|a|];
      MemCmp(a, b, |a|) == 0
    else false
  }

  /** Brx::At: the index must lie inside the buffer, and the result is
      the byte at that index: the buffer is the i bytes before it, the
      byte, and the rest. */
  function At(s: seq<Byte>, i: nat): (b: Byte)
    requires i < |s|
    ensures b in s && b == s[i]
    ensures s[..i] + [b] + s[i + 1..] == s
  {
    s[i]
  }

  /** Brx::Split(i): the suffix that starts at byte i. */
  function Split(s: seq<Byte>, i: nat): (r: seq<Byte>)
    requires i <= |s|
    ensures |r| == |s| - i
    ensures s[..i] + r == s
  {
    s[i..]
  }

  /** Brx::Split(i, n): the n bytes that start at byte i. */
  function SplitN(s: seq<Byte>, i: nat, n: nat): (r: seq<Byte>)
    requires i + n <= |s|
    ensures |r| == n
    ensures forall k :: 0 <= k < n ==> r[k] == s[i + k]
  {
    s[i..i + n]
  }

  /** Brx::BeginsWith: long enough, then memcmp over the prefix length. */
  function BeginsWith(s: seq<Byte>, b: seq<Byte>): (r: bool)
    ensures r <==> exists t :: s == b + t
  {
    if |s| >= |b| then
      assert b == b[..|b|];
      var r := MemCmp(s, b, |b|) == 0;
      assert r ==> s == b + s[|b|..];
      r
    else false
  }

  /** The order BufferCmp implements: byte-wise lexicographic, with a proper
      prefix ordered before the longer buffer. */
  ghost predicate LexLess(a: seq<Byte>, b: seq<Byte>)
  {
    if |a| == 0 || |b| == 0 then |a| < |b|
    else if a[0] != b[0] then a[0] < b[0]
    else LexLess(a[1..], b[1..])
  }

  lemma {:induction false} LexIrreflexive(a: seq<Byte>)
    ensures !LexLess(a, a)
    decreases |a|
  {
    if |a| > 0 {
      LexIrreflexive(a[1..]);
    }
  }

  lemma {:induction false} LexTransitive(a: seq<Byte>, b: seq<Byte>, c: seq<Byte>)
    requires LexLess(a, b) && LexLess(b, c)
    ensures LexLess(a, c)
    decreases |a|
  {
    if |a| > 0 && |b| > 0 && |c| > 0 && a[0] == b[0] && b[0] == c[0] {
      LexTransitive(a[1..], b[1..], c[1..]);
    }
  }

  lemma {:induction false} LexTotal(a: seq<Byte>, b: seq<Byte>)
    requires a != b
    ensures LexLess(a, b) || LexLess(b, a)
    decreases |a|
  {
    if |a| > 0 && |b| > 0 && a[0] == b[0] {
      assert a == [a[0]] + a[1..] && b == [b[0]] + b[1..];
      LexTotal(a[1..], b[1..]);
    }
  }

  /** A proper prefix sorts before the longer buffer. */
  lemma {:induction false} LexPrefix(a: seq<Byte>, t: seq<Byte>)
    requires |t| > 0
    ensures LexLess(a, a + t) && !LexLess(a + t, a)
    decreases |a|
  {
    if |a| > 0 {
      assert (a + t)[1..] == a[1..] + t;
      LexPrefix(a[1..], t);
    }
  }

  /** BufferCmp::operator(): compare byte by byte over the shorter length;
      on a tie the shorter buffer is the smaller. */
  method BufferCmp(a: seq<Byte>, b: seq<Byte>) returns (less: bool)
    ensures less <==> LexLess(a, b)
  {
    var bytes := if |a| < |b| then |a| else |b|;
    var i := 0;
    while i < bytes
      invariant 0 <= i <= bytes
      invariant LexLess(a, b) == LexLess(a[i..], b[i..])
    {
      if a[i] != b[i] {
        return a[i] < b[i];
      }
      assert a[i..][1..] == a[i + 1..] && b[i..][1..] == b[i + 1..];
      i := i + 1;
    }
    return |a| < |b|;
  }

  /** Bwx: iBytes bytes of content inside a store of iMaxBytes bytes. */
  class Bwx {
    const store: array<Byte>
    var bytes: nat

    ghost predicate Valid()
      reads this
    {
      bytes <= store.Length
    }

    function MaxBytes(): nat
      reads this
    {
      store.Length
    }

    function Contents(): seq<Byte>
      reads this, store
      requires Valid()
    {
      store[..bytes]
    }

    /** The constructor asserts that the initial length fits. */
    constructor (initialBytes: nat, maxBytes: nat)
      requires initialBytes <= maxBytes
      ensures Valid() && fresh(store)
      ensures bytes == initialBytes && MaxBytes() == maxBytes
    {
      store := new Byte[maxBytes];
      bytes := initialBytes;
    }

    method Clear()
      requires Valid()
      modifies this
      ensures Valid() && Contents() == [] && MaxBytes() == old(MaxBytes())
    {
      bytes := 0;
    }

    /** Replace asserts that the new content fits. */
    method Replace(b: seq<Byte>)
      requires Valid() && |b| <= MaxBytes()
      modifies this, store
      ensures Valid() && Contents() == b && MaxBytes() == old(MaxBytes())
    {
      forall i | 0 <= i < |b| {
        store[i] := b[i];
      }
      bytes := |b|;
    }

    /** ReplaceThrow raises BufferOverflow, leaving the buffer untouched, when
        the new content does not fit. */
    method ReplaceThrow(b: seq<Byte>) returns (overflow: bool)
      requires Valid()
      modifies this, store
      ensures Valid() && MaxBytes() == old(MaxBytes())
      ensures overflow <==> |b| > MaxBytes()
      ensures overflow ==> bytes == old(bytes) && store[..] == old(store[..])
      ensures !overflow ==> Contents() == b
    {
      if |b| > MaxBytes() {
        return true;
      }
      Replace(b);
      return false;
    }

    /** Append asserts that the result fits. */
    method Append(b: seq<Byte>)
      requires Valid() && bytes + |b| <= MaxBytes()
      modifies this, store
      ensures Valid() && Contents() == old(Contents()) + b && MaxBytes() == old(MaxBytes())
    {
      forall i | 0 <= i < |b| {
        store[bytes + i] := b[i];
      }
      bytes := bytes + |b|;
    }

    /** PtrZ writes a terminating zero just past the content; the length and
        the content are unchanged. It asserts room for that byte. */
    method PtrZ()
      requires Valid() && bytes + 1 <= MaxBytes()
      modifies store
      ensures Valid() && Contents() == old(Contents()) && store[bytes] == 0
    {
      store[bytes] := 0;
    }

    method Fill(v: Byte)
      requires Valid()
      modifies store
      ensures Valid() && |Contents()| == old(|Contents()|)
      ensures forall i :: 0 <= i < bytes ==> Contents()[i] == v
      ensures store[bytes..] == old(store[bytes..])
    {
      forall i | 0 <= i < bytes {
        store[i] := v;
      }
    }

    /** SetBytes changes only the length, asserting it fits. */
    method SetBytes(n: nat)
      requires Valid() && n <= MaxBytes()
      modifies this
      ensures Valid() && bytes == n && Contents() == store[..n]
    {
      bytes := n;
    }
  }
}
