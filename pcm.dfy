// Sample byte order. Songcast carries PCM big-endian; the Windows drivers
// and WavSender receive little-endian samples and reverse the bytes of each
// sample-sized group on the way out.
module Pcm {
  import opened Octets

  /** The bytes of s in reverse order. */
  function Reverse(s: seq<Byte>): (r: seq<Byte>)
    ensures |r| == |s|
  {
    if |s| == 0 then [] else Reverse(s[1..]) + [s[0]]
  }

  /** Byte i of the reversal is byte |s|-1-i of the input. */
  lemma {:induction false} ReverseAt(s: seq<Byte>)
    ensures forall i :: 0 <= i < |s| ==> Reverse(s)[i] == s[|s| - 1 - i]
    decreases |s|
  {
    if |s| > 0 {
      ReverseAt(s[1..]);
      assert Reverse(s) == Reverse(s[1..]) + [s[0]];
    }
  }

  /** Reversing twice gives the bytes back. */
  lemma ReverseInvolution(s: seq<Byte>)
    ensures Reverse(Reverse(s)) == s
  {
    ReverseAt(s);
    ReverseAt(Reverse(s));
  }

  /** n is a whole number of sb-byte groups. */
  predicate Whole(n: nat, sb: nat)
    requires sb > 0
  {
    n % sb == 0
  }

  lemma WholeMultiple(k: nat, sb: nat)
    requires sb > 0
    ensures Whole(k * sb, sb)
  {
    DivisionUnique(k * sb, sb, k, 0);
  }

  lemma WholeAdd(a: nat, b: nat, sb: nat)
    requires sb > 0 && Whole(a, sb) && Whole(b, sb)
    ensures Whole(a + b, sb)
  {
    var qa, qb := a / sb, b / sb;
    assert a == qa * sb && b == qb * sb;
    assert a + b == (qa + qb) * sb;
    DivisionUnique(a + b, sb, qa + qb, 0);
  }

  lemma WholeSub(a: nat, b: nat, sb: nat)
    requires sb > 0 && b <= a && Whole(a, sb) && Whole(b, sb)
    ensures Whole(a - b, sb)
  {
    var qa, qb := a / sb, b / sb;
    assert a == qa * sb && b == qb * sb;
    assert b - a == (qb - qa) * sb;
    if qa < qb {
      MulAtLeast(qb - qa, sb);
      assert false;
    }
    assert a - b == (qa - qb) * sb;
    DivisionUnique(a - b, sb, qa - qb, 0);
  }

  /** A non-empty whole number of groups holds a first group, and what
      follows it is whole too. */
  lemma WholeFirst(n: nat, sb: nat)
    requires sb > 0 && Whole(n, sb) && n > 0
    ensures n >= sb && Whole(n - sb, sb)
  {
    var q := n / sb;
    assert n == q * sb;
    assert q >= 1;
    MulAtLeast(q, sb);
    assert n - sb == (q - 1) * sb;
    DivisionUnique(n - sb, sb, q - 1, 0);
  }

  /** s cut into groups of sb bytes, each group reversed in place. */
  function SwapGroups(s: seq<Byte>, sb: nat): (r: seq<Byte>)
    requires sb > 0 && Whole(|s|, sb)
    ensures |r| == |s|
    decreases |s|
  {
    if |s| == 0 then [] else
      WholeFirst(|s|, sb);
      Reverse(s[..sb]) + SwapGroups(s[sb..], sb)
  }

  /** A single group is just reversed. */
  lemma SwapOneGroup(s: seq<Byte>)
    requires |s| > 0
    ensures Whole(|s|, |s|) && SwapGroups(s, |s|) == Reverse(s)
  {
    assert Whole(0, |s|);
    assert s[|s|..] == [];
    assert s[..|s|] == s;
  }

  /** Swapping is done group by group, so it distributes over a cut at a
      group boundary. */
  lemma {:induction false} SwapGroupsAppend(a: seq<Byte>, b: seq<Byte>, sb: nat)
    requires sb > 0 && Whole(|a|, sb) && Whole(|b|, sb)
    ensures Whole(|a + b|, sb)
    ensures SwapGroups(a + b, sb) == SwapGroups(a, sb) + SwapGroups(b, sb)
    decreases |a|
  {
    WholeAdd(|a|, |b|, sb);
    if |a| == 0 {
      assert a + b == b;
    } else {
      SwapGroupsCons(a, sb);
      SwapGroupsAppend(a[sb..], b, sb);
      SwapGroupsAppendStep(a, b, sb);
    }
  }

  /** The inductive step of SwapGroupsAppend: with the first group of a
      split off, the claim for the rest of a gives the claim for a. */
  lemma SwapGroupsAppendStep(a: seq<Byte>, b: seq<Byte>, sb: nat)
    requires sb > 0 && |a| >= sb && Whole(|a| - sb, sb) && Whole(|b|, sb)
    requires Whole(|a[sb..] + b|, sb) && Whole(|a + b|, sb) && Whole(|a|, sb)
    requires SwapGroups(a[sb..] + b, sb) == SwapGroups(a[sb..], sb) + SwapGroups(b, sb)
    ensures SwapGroups(a + b, sb) == SwapGroups(a, sb) + SwapGroups(b, sb)
  {
    var g, rest := a[..sb], a[sb..];
    SwapGroupsCons(a, sb);
    SwapGroupsCons(a + b, sb);
    SplitAppend(a, b, sb);
    AppendAssoc(Reverse(g), SwapGroups(rest, sb), SwapGroups(b, sb));
  }

  /** Cutting a + b inside a. */
  lemma SplitAppend(a: seq<Byte>, b: seq<Byte>, k: nat)
    requires k <= |a|
    ensures (a + b)[..k] == a[..k] && (a + b)[k..] == a[k..] + b
  {
    var d, e := (a + b)[k..], a[k..] + b;
    assert forall i :: 0 <= i < |d| ==> d[i] == e[i];
  }

  lemma AppendAssoc(x: seq<Byte>, y: seq<Byte>, z: seq<Byte>)
    ensures x + (y + z) == (x + y) + z
  {
    var l, r := x + (y + z), (x + y) + z;
    assert forall i :: 0 <= i < |l| ==> l[i] == r[i];
  }

  /** One step of SwapGroups: the first group reversed, then the rest. */
  lemma SwapGroupsCons(s: seq<Byte>, sb: nat)
    requires sb > 0 && Whole(|s|, sb) && |s| > 0
    ensures |s| >= sb && Whole(|s| - sb, sb)
    ensures SwapGroups(s, sb) == Reverse(s[..sb]) + SwapGroups(s[sb..], sb)
  {
    WholeFirst(|s|, sb);
  }

  /** Reversing every group twice gives the input back. */
  lemma {:induction false} SwapGroupsInvolution(s: seq<Byte>, sb: nat)
    requires sb > 0 && Whole(|s|, sb)
    ensures SwapGroups(SwapGroups(s, sb), sb) == s
    decreases |s|
  {
    if |s| > 0 {
      var g, rest := s[..sb], s[sb..];
      SwapGroupsCons(s, sb);
      var t := SwapGroups(rest, sb);
      var u := Reverse(g) + t;
      assert u[..sb] == Reverse(g) && u[sb..] == t;
      SwapGroupsCons(u, sb);
      ReverseInvolution(g);
      SwapGroupsInvolution(rest, sb);
      assert g + rest == s;
    }
  }

  /** Reversing groups keeps the bytes: the output is a permutation. */
  lemma {:induction false} SwapGroupsPermutes(s: seq<Byte>, sb: nat)
    requires sb > 0 && Whole(|s|, sb)
    ensures multiset(SwapGroups(s, sb)) == multiset(s)
    decreases |s|
  {
    if |s| > 0 {
      var g, rest := s[..sb], s[sb..];
      SwapGroupsCons(s, sb);
      ReversePermutes(g);
      SwapGroupsPermutes(rest, sb);
      PermutedParts(g, rest, Reverse(g), SwapGroups(rest, sb));
      assert g + rest == s;
    }
  }

  /** Permuting each part of a concatenation permutes the whole. */
  lemma PermutedParts(a: seq<Byte>, b: seq<Byte>, a': seq<Byte>, b': seq<Byte>)
    requires multiset(a') == multiset(a) && multiset(b') == multiset(b)
    ensures multiset(a' + b') == multiset(a + b)
  {
  }

  lemma {:induction false} ReversePermutes(s: seq<Byte>)
    ensures multiset(Reverse(s)) == multiset(s)
    decreases |s|
  {
    if |s| > 0 {
      ReversePermutes(s[1..]);
      assert s == [s[0]] + s[1..];
    }
  }

  /** PipelineCopyAudioLocked / MpusCopyAudio: copy src into dst, reversing
      the bytes of each sb-byte group. The outer loop counts the remaining
      bytes down by sb; the inner loop (CopyGroup) walks a source position
      back from the end of the group. */
  method CopyAudio(dst: array<Byte>, src: seq<Byte>, sb: nat)
    requires sb > 0 && Whole(|src|, sb) && dst.Length == |src|
    modifies dst
    ensures dst[..] == SwapGroups(src, sb)
  {
    var bytes := |src|;
    var at := 0;
    while bytes > 0
      invariant 0 <= at <= |src| && bytes == |src| - at
      invariant Whole(at, sb) && Whole(bytes, sb)
      invariant dst[..at] == SwapGroups(src[..at], sb)
    {
      WholeFirst(bytes, sb);
      CopyGroup(dst, src, at, sb);
      at := at + sb;
      bytes := bytes - sb;
    }
    assert src[..at] == src;
  }

  /** One group: dst[at..at+sb] receives src[at..at+sb] reversed, and the
      groups already copied stay as they are. */
  method CopyGroup(dst: array<Byte>, src: seq<Byte>, at: nat, sb: nat)
    requires sb > 0 && at + sb <= |src| == dst.Length && Whole(at, sb)
    requires dst[..at] == SwapGroups(src[..at], sb)
    modifies dst
    ensures Whole(at + sb, sb)
    ensures dst[..at + sb] == SwapGroups(src[..at + sb], sb)
  {
    ReverseGroup(dst, src, at, sb);
    GroupStep(src, at, sb, dst[..at + sb]);
  }

  /** The inner loop: the bytes of one group are written last to first. */
  method ReverseGroup(dst: array<Byte>, src: seq<Byte>, at: nat, sb: nat)
    requires at + sb <= |src| == dst.Length
    modifies dst
    ensures dst[..at] == old(dst[..at])
    ensures dst[at..at + sb] == Reverse(src[at..at + sb])
  {
    var d := at;
    var s := at + sb;
    while s > at
      invariant at <= s <= at + sb && d == 2 * at + sb - s
      invariant dst[..at] == old(dst[..at])
      invariant forall k :: at <= k < d ==> dst[k] == src[2 * at + sb - 1 - k]
    {
      dst[d] := src[s - 1];
      d := d + 1;
      s := s - 1;
    }
    ghost var g, out := src[at..at + sb], dst[at..at + sb];
    ReverseAt(g);
    assert forall k :: 0 <= k < sb ==> out[k] == Reverse(g)[k];
  }

  /** Appending one reversed group to the swapped prefix swaps one more
      group. */
  lemma GroupStep(src: seq<Byte>, at: nat, sb: nat, out: seq<Byte>)
    requires sb > 0 && at + sb <= |src| && Whole(at, sb) && |out| == at + sb
    requires out[..at] == SwapGroups(src[..at], sb)
    requires out[at..] == Reverse(src[at..at + sb])
    ensures Whole(at + sb, sb)
    ensures out == SwapGroups(src[..at + sb], sb)
  {
    ghost var g := src[at..at + sb];
    SwapOneGroup(g);
    WholeMultiple(1, sb);
    assert src[..at + sb] == src[..at] + g;
    SwapGroupsAppend(src[..at], g, sb);
    assert out == out[..at] + out[at..];
  }
}
