// FifoLiteBase / FifoLite<T,S>: a fixed-capacity ring of S slots. The base
// class owns the ring cursors; the template stores entries at the slot index
// the base hands out.
module Fifo {

  /** x reduced into [0, n) by one conditional subtraction, the wrap the
      source writes as "if (index == slots) index = 0". */
  function Wrap(x: nat, n: nat): nat
    requires x < 2 * n
  {
    if x < n then x else x - n
  }

  lemma WrapIsMod(x: nat, n: nat)
    requires x < 2 * n
    ensures Wrap(x, n) == x % n
  {
  }

  /** The cursor state of FifoLiteBase. */
  datatype Ring = Ring(slots: nat, used: nat, read: nat, write: nat)

  /** Both cursors lie in [0, slots), at most slots entries are in use, and
      the write cursor sits used slots past the read cursor. */
  ghost predicate Wf(r: Ring)
  {
    r.slots > 0 && r.used <= r.slots && r.read < r.slots && r.write < r.slots
    && r.write == (if r.read + r.used < r.slots then r.read + r.used else r.read + r.used - r.slots)
  }

  function Free(r: Ring): nat
    requires r.used <= r.slots
  {
    r.slots - r.used
  }

  /** The constructor's state: nothing used, both cursors at 0. */
  function Init(slots: nat): (r: Ring)
    requires slots > 0
    ensures Wf(r) && r.slots == slots && r.used == 0 && Free(r) == slots
  {
    Ring(slots, 0, 0, 0)
  }

  /** Write: post-increment the write cursor with wrap, one more slot used. */
  function AfterWrite(r: Ring): (r': Ring)
    requires Wf(r) && r.used < r.slots
    ensures Wf(r') && r'.slots == r.slots && r'.read == r.read
    ensures r'.used == r.used + 1 && Free(r') + 1 == Free(r)
    ensures r'.write == Wrap(r.write + 1, r.slots)
  {
    var w := r.write + 1;
    Ring(r.slots, r.used + 1, r.read, if w == r.slots then 0 else w)
  }

  /** Read: post-increment the read cursor with wrap, one slot fewer used. */
  function AfterRead(r: Ring): (r': Ring)
    requires Wf(r) && r.used > 0
    ensures Wf(r') && r'.slots == r.slots && r'.write == r.write
    ensures r'.used + 1 == r.used && Free(r') == Free(r) + 1
    ensures r'.read == Wrap(r.read + 1, r.slots)
  {
    var i := r.read + 1;
    Ring(r.slots, r.used - 1, if i == r.slots then 0 else i, r.write)
  }

  /** WriteBack: pre-decrement the read cursor with wrap, one more slot used. */
  function AfterWriteBack(r: Ring): (r': Ring)
    requires Wf(r) && r.used < r.slots
    ensures Wf(r') && r'.slots == r.slots && r'.write == r.write
    ensures r'.used == r.used + 1
    ensures Wrap(r'.read + 1, r.slots) == r.read
  {
    Ring(r.slots, r.used + 1, if r.read == 0 then r.slots - 1 else r.read - 1, r.write)
  }

  /** A Read straight after a WriteBack hands out the slot that WriteBack
      returned and restores the cursors exactly. */
  lemma WriteBackThenRead(r: Ring)
    requires Wf(r) && r.used < r.slots
    ensures AfterRead(AfterWriteBack(r)) == r
  {
  }

  /** A Read undoes the cursor movement of a Write on an empty ring. */
  lemma WriteThenReadEmpty(r: Ring)
    requires Wf(r) && r.used == 0
    ensures AfterRead(AfterWrite(r)).used == 0
    ensures AfterWrite(r).read == r.read && AfterRead(AfterWrite(r)).read == AfterWrite(r).write
  {
  }

  /** In every reachable state used + free == slots. */
  lemma UsedPlusFree(r: Ring)
    requires Wf(r)
    ensures r.used + Free(r) == r.slots
  {
  }

  /** The k-th oldest entry lives in slot Wrap(read + k). */
  function SlotOf(r: Ring, k: nat): (i: nat)
    requires Wf(r) && k < r.slots
    ensures i < r.slots
  {
    Wrap(r.read + k, r.slots)
  }

  /** Distinct ages map to distinct slots, so writing the next slot never
      disturbs an entry still in the fifo. */
  lemma SlotsDistinct(r: Ring, j: nat, k: nat)
    requires Wf(r) && j < k < r.slots
    ensures SlotOf(r, j) != SlotOf(r, k)
  {
  }

  /** FifoLite<T,S>: the base cursors plus the element array iBuf. */
  class FifoLite<T(0)> {
    const slots: nat
    var used: nat
    var readIndex: nat
    var writeIndex: nat
    const buf: array<T>
    /** The queued entries, oldest first. */
    ghost var contents: seq<T>

    function Cursors(): Ring
      reads this
    {
      Ring(slots, used, readIndex, writeIndex)
    }

    ghost predicate Valid()
      reads this, buf
    {
      Wf(Cursors()) && buf.Length == slots && |contents| == used
      && forall k {:trigger SlotOf(Cursors(), k)} :: 0 <= k < used ==> contents[k] == buf[SlotOf(Cursors(), k)]
    }

    /** Slots() is the template parameter S, fixed for the life of the fifo:
        the length of the element array, shared out between the used and
        the free slots. */
    function Slots(): (n: nat)
      reads this, buf
      ensures Valid() ==> n == buf.Length && n == SlotsUsed() + SlotsFree()
    {
      slots
    }

    function SlotsUsed(): (n: nat)
      reads this, buf
      requires Valid()
      ensures n == |contents|
    {
      used
    }

    function SlotsFree(): (n: nat)
      reads this, buf
      requires Valid()
      ensures n + |contents| == slots
    {
      slots - used
    }

    /** A C++ array of S elements needs S > 0. */
    constructor (s: nat)
      requires s > 0
      ensures Valid() && fresh(buf) && slots == s && contents == []
      ensures Cursors() == Init(s)
    {
      slots := s;
      used := 0;
      readIndex := 0;
      writeIndex := 0;
      buf := new T[s];
      contents := [];
    }

    /** FifoLiteBase::Write: hands out the slot to store into. */
    method WriteSlot() returns (index: nat)
      requires Wf(Cursors()) && used < slots
      modifies this`used, this`writeIndex
      ensures index == old(writeIndex) == SlotOf(old(Cursors()), old(used))
      ensures Cursors() == AfterWrite(old(Cursors()))
    {
      index := writeIndex;
      writeIndex := writeIndex + 1;
      if writeIndex == slots {
        writeIndex := 0;
      }
      used := used + 1;
    }

    /** FifoLiteBase::WriteBack: hands out the slot in front of the oldest entry. */
    method WriteBackSlot() returns (index: nat)
      requires Wf(Cursors()) && used < slots
      modifies this`used, this`readIndex
      ensures index == readIndex
      ensures Cursors() == AfterWriteBack(old(Cursors()))
    {
      if readIndex == 0 {
        readIndex := slots - 1;
      } else {
        readIndex := readIndex - 1;
      }
      used := used + 1;
      index := readIndex;
    }

    /** FifoLiteBase::Read: hands out the slot of the oldest entry. */
    method ReadSlot() returns (index: nat)
      requires Wf(Cursors()) && used > 0
      modifies this`used, this`readIndex
      ensures index == old(readIndex)
      ensures Cursors() == AfterRead(old(Cursors()))
    {
      index := readIndex;
      readIndex := readIndex + 1;
      if readIndex == slots {
        readIndex := 0;
      }
      used := used - 1;
    }

    /** Writing a full fifo is an assertion failure, hence the requires. The
        entry becomes the newest; no other slot of iBuf changes. */
    method Write(e: T)
      requires Valid() && |contents| < slots
      modifies this, buf
      ensures Valid() && contents == old(contents) + [e]
      ensures Cursors() == AfterWrite(old(Cursors()))
      ensures forall i :: 0 <= i < slots && i != old(writeIndex) ==> buf[i] == old(buf[i])
    {
      ghost var r := Cursors();
      var index := WriteSlot();
      buf[index] := e;
      contents := contents + [e];
      forall k | 0 <= k < used
        ensures contents[k] == buf[SlotOf(Cursors(), k)]
      {
        if k < used - 1 {
          SlotsDistinct(r, k, used - 1);
        }
      }
    }

    /** The entry becomes the oldest, so the next Read returns it. */
    method WriteBack(e: T)
      requires Valid() && |contents| < slots
      modifies this, buf
      ensures Valid() && contents == [e] + old(contents)
      ensures Cursors() == AfterWriteBack(old(Cursors()))
      ensures forall i :: 0 <= i < slots && i != readIndex ==> buf[i] == old(buf[i])
    {
      ghost var r := Cursors();
      var index := WriteBackSlot();
      buf[index] := e;
      contents := [e] + contents;
      forall k | 0 <= k < used
        ensures contents[k] == buf[SlotOf(Cursors(), k)]
      {
        if k > 0 {
          assert SlotOf(Cursors(), k) == SlotOf(r, k - 1);
          SlotsDistinct(Cursors(), 0, k);
        }
      }
    }

    /** Reading an empty fifo is an assertion failure, hence the requires.
        Entries leave in the order they were written. */
    method Read() returns (e: T)
      requires Valid() && |contents| > 0
      modifies this
      ensures Valid()
      ensures e == old(contents)[0] && contents == old(contents)[1..]
      ensures Cursors() == AfterRead(old(Cursors()))
    {
      ghost var r := Cursors();
      var index := ReadSlot();
      e := buf[index];
      assert index == SlotOf(r, 0);
      contents := contents[1..];
      forall k | 0 <= k < used
        ensures contents[k] == buf[SlotOf(Cursors(), k)]
      {
        assert SlotOf(Cursors(), k) == SlotOf(r, k + 1);
      }
    }
  }
}
