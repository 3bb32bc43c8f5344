// The packetiser of the ohSongcaster Windows audio driver (the Mpus*
// globals of its minwave.cpp). It cuts audio into the same Ohm audio
// packets as the ohSongcast driver, but keeps finished packets in a plain
// 16-entry array ring (MpusQueue with MpusQueueCount and its two indices)
// and has no history and no resend.
//
// The globals become the fields of one object, and every method is one
// step taken under MpusSpinLock. Where the driver releases the lock and
// then calls MpusOutput, the method returns output == true and Output is
// the caller's next step. An MDL chain is modelled by the header it starts
// with and the audio bytes of the fragments after it.
module SongcasterMinwave {
  import opened Octets
  import opened Fifo
  import opened OhmWire
  import opened Pcm
  import opened SongcastMinwave
  import Network

  const MpusQueueSlots: nat := 16

  /** MpusQueueEntry: a packet (its header and audio), its byte count and
      the address it goes to. */
  datatype Entry = Entry(header: HeaderStruct, audio: seq<Byte>, bytes: nat, address: Network.SockAddrIn)

  /** A packet that can go out: its header gives a whole sample size to
      divide by and its byte count is the header plus its audio. */
  predicate Sendable(e: Entry)
  {
    FormatOk(e.header) && e.bytes == HeaderStructBytes + |e.audio|
  }

  /** MpusQueueAddLocked's effect on the queued entries: the entry is
      appended while fewer than 16 are queued and dropped otherwise. */
  function Added(q: seq<Entry>, e: Entry): seq<Entry>
  {
    if |q| < MpusQueueSlots then q + [e] else q
  }

  /** The packet MpusOutput sends: samples, frame, total bytes and both
      timestamps filled in. */
  function Outgoing(e: Entry, frame: U32, counter: U64): (r: Entry)
    requires Sendable(e)
    ensures r.audio == e.audio && r.bytes == e.bytes && r.address == e.address
    ensures Swap32(r.header.audioFrame) == frame && Swap16(r.header.totalBytes) == e.bytes % 0x1_0000
  {
    e.(header := Numbered(e.header, e.bytes, frame, counter))
  }

  /** The packet MpusOutput sends as it stands: the timestamp clock is
      chosen by the family test on the byte-reversed iAudioSampleRate. */
  function OutgoingAsWritten(e: Entry, frame: U32, counter: U64): (r: Entry)
    requires Sendable(e)
    ensures r == Outgoing(e, frame, counter).(header := NumberedAsWritten(e.header, e.bytes, frame, counter))
  {
    e.(header := NumberedAsWritten(e.header, e.bytes, frame, counter))
  }

  /** One second into a 44100 Hz stream the packet sent should be stamped
      11289600 and is stamped 12288000 as written. */
  lemma OutgoingAsWrittenMisses44100(e: Entry, frame: U32)
    requires Sendable(e) && e.header.sampleRate == Swap32(44100)
    ensures Swap32(Outgoing(e, frame, 10_000_000).header.mediaTimestamp) == 11289600
    ensures Swap32(OutgoingAsWritten(e, frame, 10_000_000).header.mediaTimestamp) == 12288000
  {
    NumberedAsWrittenMisses44100(e.header, e.bytes, frame);
  }

  /** MpusUpdateLatencyLocked as it stands, on the start-up header (44100
      Hz, 100 ms): it stores 1228800 ticks of the 48 kHz clock where the
      start-up header holds the intended 1128960. */
  lemma StartLatencyAsWritten()
    ensures Swap32(StartHeader(Template()).mediaLatency) == 1128960
    ensures Swap32(MediaLatencyFieldAsWritten(100, StartHeader(Template()).sampleRate)) == 1228800
  {
    StartHeaderIsFormatHeader(Template());
    LatencyAt44100();
  }

  /** Queueing never loses the order of what was queued before, and the
      queue never grows past its 16 entries. */
  lemma {:induction false} AddedKeepsOrder(q: seq<Entry>, e: Entry)
    requires |q| <= MpusQueueSlots
    ensures |Added(q, e)| <= MpusQueueSlots
    ensures Added(q, e)[..|q|] == q
    ensures |Added(q, e)| == |q| + 1 <==> |q| < MpusQueueSlots
  {
    if |q| < MpusQueueSlots {
      assert (q + [e])[..|q|] == q;
    } else {
      assert q[..|q|] == q;
    }
  }

  /** A stream of sends that never finds the queue full comes out of the
      queue in the order it went in. */
  lemma {:induction false} AddedInOrder(q: seq<Entry>, es: seq<Entry>)
    requires |q| + |es| <= MpusQueueSlots
    ensures AddAll(q, es) == q + es
    decreases |es|
  {
    if es != [] {
      AddedInOrder(q + [es[0]], es[1..]);
      assert q + [es[0]] + es[1..] == q + es;
    }
  }

  function AddAll(q: seq<Entry>, es: seq<Entry>): seq<Entry>
    decreases |es|
  {
    if es == [] then q else AddAll(Added(q, es[0]), es[1..])
  }

  /** MpusQueue with MpusQueueCount, MpusQueueIndexRead and
      MpusQueueIndexWrite: a ring of 16 entries. */
  class MpusRing {
    const buf: array<Entry>
    var count: nat
    var readIndex: nat
    var writeIndex: nat
    /** The queued entries, oldest first. */
    ghost var contents: seq<Entry>

    function Cursors(): Ring
      reads this`count, this`readIndex, this`writeIndex
    {
      Ring(MpusQueueSlots, count, readIndex, writeIndex)
    }

    /** The ring holds the queued entries in order from the read index. */
    ghost predicate Valid()
      reads this, buf
    {
      buf.Length == MpusQueueSlots && Wf(Cursors()) && |contents| == count
      && forall k :: 0 <= k < count ==> contents[k] == buf[SlotOf(Cursors(), k)]
    }

    /** The start-up's count, read index and write index of 0. */
    constructor ()
      ensures Valid() && fresh(buf) && contents == []
      ensures count == 0 && readIndex == 0 && writeIndex == 0
    {
      buf := new Entry[MpusQueueSlots];
      count, readIndex, writeIndex := 0, 0, 0;
      contents := [];
    }

    /** MpusQueueAddLocked's queue half: the count is raised first; past
        16 it is put back and nothing is stored. Otherwise the entry goes
        into the slot at the write index, which then advances and wraps at
        16. */
    method Add(e: Entry) returns (added: bool)
      requires Valid()
      modifies this`count, this`writeIndex, this`contents, buf
      ensures Valid() && readIndex == old(readIndex)
      ensures added == (|old(contents)| < MpusQueueSlots)
      ensures contents == Added(old(contents), e)
    {
      count := count + 1;
      if count > MpusQueueSlots {
        count := count - 1;
        return false;
      }
      Store(e);
      added := true;
    }

    /** The store and the write-index advance, once the raised count has
        been found to fit. */
    method Store(e: Entry)
      requires 0 < count <= MpusQueueSlots
      requires var r := Ring(MpusQueueSlots, count - 1, readIndex, writeIndex);
        buf.Length == MpusQueueSlots && Wf(r) && |contents| == count - 1
        && forall k :: 0 <= k < count - 1 ==> contents[k] == buf[SlotOf(r, k)]
      modifies this`writeIndex, this`contents, buf
      ensures Valid() && contents == old(contents) + [e]
    {
      ghost var r := Ring(MpusQueueSlots, count - 1, readIndex, writeIndex);
      buf[writeIndex] := e;
      writeIndex := writeIndex + 1;
      if writeIndex >= MpusQueueSlots {
        writeIndex := 0;
      }
      contents := contents + [e];
      assert Cursors() == AfterWrite(r);
      forall k | 0 <= k < count
        ensures contents[k] == buf[SlotOf(Cursors(), k)]
      {
        if k < count - 1 {
          SlotsDistinct(r, k, count - 1);
        }
      }
    }

    /** MpusQueueRemove's queue half on a non-empty queue: the entry at the
        read index, which then advances and wraps at 16. Entries leave in
        the order they were queued. */
    method Take() returns (e: Entry)
      requires Valid() && count > 0
      modifies this`count, this`readIndex, this`contents
      ensures Valid() && e == old(contents[0]) && contents == old(contents[1..])
    {
      ghost var r := Cursors();
      e := buf[readIndex];
      readIndex := readIndex + 1;
      if readIndex >= MpusQueueSlots {
        readIndex := 0;
      }
      count := count - 1;
      contents := contents[1..];
      assert Cursors() == AfterRead(r);
      forall k | 0 <= k < count
        ensures contents[k] == buf[SlotOf(Cursors(), k)]
      {
        assert SlotOf(Cursors(), k) == SlotOf(r, k + 1);
      }
    }
  }

  /** The byte counts of the start-up's format, 16-bit stereo at 44100 Hz:
      two bytes per channel sample, four per frame, and the 44.1 kHz packet
      size. */
  method StartSizes() returns (scb: nat, sb: nat, pb: nat)
    ensures scb == 2 && sb == 4 && pb == PacketBytes44k
  {
    scb := ChannelBytes(16);
    sb := FrameBytes(scb, 2);
    pb := PacketBytesFor(44100);
  }

  /** The invariant of the stream format: a supported sample width, whole
      sample frames, one of the two packet sizes holding whole samples, and
      a valid header. */
  ghost predicate FormatFacts(h: HeaderStruct, scb: nat, sb: nat, pb: nat)
  {
    1 <= scb <= 4 && Whole(sb, scb)
    && (pb == PacketBytes44k || pb == PacketBytes48k)
    && Whole(pb - HeaderStructBytes, scb)
    && FormatOk(h)
  }

  class Mpus {
    var enabled: nat
    var active: nat
    var latency: U32
    var stopped: bool
    var sending: bool
    var packetBytes: nat
    var sampleBytes: nat
    var sampleChannelBytes: nat
    var frame: U32
    /** MpusPerformanceCounter: the interrupt time of the last completion. */
    var counter: U64
    /** MpusHeader: the template each new packet starts from. */
    var header: HeaderStruct
    /** MpusAddress and MpusAdapter, set by MpusUpdateEndpoint. */
    var address: Network.SockAddrIn
    var adapter: U32
    /** MpusMdl (present or NULL), its header and audio, and MpusBytes. */
    var pending: bool
    var pendingHeader: HeaderStruct
    var pendingAudio: seq<Byte>
    var bytes: nat
    const queue: MpusRing

    function Packet(): Pending
      reads this`pending, this`pendingHeader, this`pendingAudio, this`bytes
    {
      Pending(pending, pendingHeader, pendingAudio, bytes)
    }

    /** Every queued entry can be sent. */
    ghost predicate QueueOk()
      reads queue, queue.buf
    {
      queue.Valid() && forall k :: 0 <= k < |queue.contents| ==> Sendable(queue.contents[k])
    }

    ghost predicate FormatValid()
      reads this`enabled, this`active, this`sampleChannelBytes, this`sampleBytes, this`packetBytes, this`header
    {
      enabled <= 1 && active <= 1
      && FormatFacts(header, sampleChannelBytes, sampleBytes, packetBytes)
    }

    ghost predicate PendingOk()
      reads this`enabled, this`active, this`sampleChannelBytes, this`sampleBytes, this`packetBytes, this`header
      reads this`pending, this`pendingHeader, this`pendingAudio, this`bytes
    {
      FormatValid()
      && bytes == (if pending then HeaderStructBytes + |pendingAudio| else 0)
      && (pending ==> FormatOk(pendingHeader) && Whole(|pendingAudio|, sampleChannelBytes))
      && (!pending ==> pendingAudio == [])
    }

    ghost predicate Valid()
      reads this`enabled, this`active, this`sampleChannelBytes, this`sampleBytes, this`packetBytes, this`header
      reads this`pending, this`pendingHeader, this`pendingAudio, this`bytes
      reads queue, queue.buf
    {
      QueueOk() && PendingOk()
      && (pending ==> HeaderStructBytes + |pendingAudio| < packetBytes)
    }

    /** The state the driver starts in. */
    ghost predicate Initial(now: U64)
      reads this, queue
    {
      enabled == 0 && active == 0 && latency == 100 && frame == 0 && counter == now
      && stopped && !sending && !pending && pendingAudio == [] && bytes == 0 && queue.contents == []
      && queue.count == 0 && queue.readIndex == 0 && queue.writeIndex == 0
      && packetBytes == PacketBytes44k && sampleChannelBytes == 2 && sampleBytes == 4
      && header == StartHeader(Template())
      && address == Network.InitialiseAny() && adapter == 0
    }

    /** Init's Mpus part: disabled, inactive, latency 100 ms, stopped, not
        sending, nothing pending, frame 0, the performance counter read now,
        an empty queue, the header template with the default format 44100 Hz
        16-bit stereo, and the wildcard address. */
    constructor (now: U64)
      ensures Valid() && fresh(queue) && fresh(queue.buf) && Initial(now)
    {
      queue := new MpusRing();
      enabled, active, latency, stopped, sending, frame, counter, pending, pendingAudio, bytes
        := 0, 0, 100, true, false, 0, now, false, [], 0;
      header, sampleChannelBytes, sampleBytes, packetBytes := Template(), 0, 0, PacketBytes44k;
      address, adapter := Network.InitialiseAny(), 0;
      new;
      SetDefaultFormatLocked();
    }

    /** Init's MpusSetFormatLocked(44100, 1411200, 16, 2). */
    method SetDefaultFormatLocked()
      requires !pending && pendingAudio == [] && bytes == 0 && enabled <= 1 && active <= 1 && latency == 100
      modifies this`header, this`sampleBytes, this`sampleChannelBytes, this`packetBytes
      ensures PendingOk()
      ensures header == StartHeader(old(header))
      ensures packetBytes == PacketBytes44k && sampleChannelBytes == 2 && sampleBytes == 4
    {
      SetFormatLocked(44100, 1411200, 16, 2);
      StartHeaderIsFormatHeader(old(header));
    }

    /** MpusUpdateEndpoint: the sockaddr for the new address and port. */
    method UpdateEndpoint(addr: U32, port: U32, newAdapter: U32)
      modifies this`address, this`adapter
      ensures address == Network.Initialise(addr as bv32, port as bv32) && adapter == newAdapter
    {
      address := Network.Initialise(addr as bv32, port as bv32);
      adapter := newAdapter;
    }

    /** MpusUpdateLatency with MpusUpdateLatencyLocked. */
    method UpdateLatency(ms: U32)
      requires Valid()
      modifies this`latency, this`header
      ensures Valid() && latency == ms
      ensures header == old(header).(mediaLatency := MediaLatencyField(ms, header.sampleRate))
    {
      latency := ms;
      header := header.(mediaLatency := MediaLatencyField(ms, header.sampleRate));
    }

    /** MpusSetFormatLocked: the format goes into the template, the byte
        counts follow the depth and channels, the packet size follows the
        rate and the latency is redone. Only called with no packet pending. */
    method SetFormatLocked(rate: U32, bitRate: U32, depth: U32, channels: U32)
      requires !pending && pendingAudio == [] && bytes == 0 && enabled <= 1 && active <= 1
      requires SupportedDepth(depth) && 0 < channels < 0x100
      modifies this`header, this`sampleBytes, this`sampleChannelBytes, this`packetBytes
      ensures PendingOk()
      ensures header == FormatHeader(old(header), rate, bitRate, depth, channels, latency)
      ensures sampleChannelBytes == depth / 8 && sampleBytes == depth / 8 * channels
      ensures packetBytes == PacketBytesFor(rate)
    {
      var scb := ChannelBytes(depth);
      var sb := FrameBytes(scb, channels);
      sampleChannelBytes, sampleBytes := scb, sb;
      packetBytes := PacketBytesFor(rate);
      PacketWhole(packetBytes, scb);
      header := FormatHeader(header, rate, bitRate, depth, channels, latency);
      assert FormatOk(header);
      assert FormatValid();
    }

    /** MpusSetFormat: a pending packet is queued in the old format first,
        so that no audio of the new format is added to it. */
    method SetFormat(rate: U32, bitRate: U32, depth: U32, channels: U32)
      requires Valid() && SupportedDepth(depth) && 0 < channels < 0x100
      modifies this`header, this`sampleBytes, this`sampleChannelBytes, this`packetBytes
      modifies this`pending, this`pendingAudio, this`bytes
      modifies queue, queue.buf
      ensures Valid() && !pending
      ensures queue.contents == if old(pending)
        then Added(old(queue.contents), Entry(old(pendingHeader), old(pendingAudio), old(bytes), address))
        else old(queue.contents)
      ensures header == FormatHeader(old(header), rate, bitRate, depth, channels, latency)
      ensures sampleChannelBytes == depth / 8 && sampleBytes == depth / 8 * channels
      ensures packetBytes == PacketBytesFor(rate)
    {
      if pending {
        var _ := QueueAddLocked();
      }
      SetFormatLocked(rate, bitRate, depth, channels);
    }

    /** MpusQueueAddLocked: the chain goes into the ring, or is freed when
        16 entries are queued. Either way nothing is pending afterwards. */
    method QueueAddLocked() returns (added: bool)
      requires QueueOk() && PendingOk() && pending
      modifies queue, queue.buf, this`pending, this`pendingAudio, this`bytes
      ensures QueueOk() && PendingOk() && !pending
      ensures added == (|old(queue.contents)| < MpusQueueSlots)
      ensures queue.contents == Added(old(queue.contents), Entry(pendingHeader, old(pendingAudio), old(bytes), address))
    {
      var e := Entry(pendingHeader, pendingAudio, bytes, address);
      added := queue.Add(e);
      pending, pendingAudio, bytes := false, [], 0;
    }

    /** MpusQueueRemove: on an empty queue the sending flag is cleared and
        nothing is returned; otherwise the oldest entry. */
    method QueueRemove() returns (e: Option<Entry>)
      requires Valid()
      modifies this`sending, queue
      ensures Valid()
      ensures old(queue.contents) == [] ==> e == None && !sending && queue.contents == []
      ensures old(queue.contents) != [] ==>
        e == Some(old(queue.contents[0])) && queue.contents == old(queue.contents[1..]) && sending == old(sending)
    {
      if queue.count == 0 {
        sending := false;
        return None;
      }
      var entry := queue.Take();
      e := Some(entry);
    }

    /** MpusOutput: takes the next entry and numbers it with the next frame,
        stamping it with the last completion's interrupt time. The send
        itself is the caller's. */
    method Output() returns (sent: Option<Entry>)
      requires Valid()
      modifies this`sending, this`frame, queue
      ensures Valid()
      ensures old(queue.contents) == [] ==> sent == None && !sending && frame == old(frame) && queue.contents == []
      ensures old(queue.contents) != [] ==>
        queue.contents == old(queue.contents[1..]) && sending == old(sending) && frame == Inc32(old(frame))
        && sent == Some(Outgoing(old(queue.contents[0]), frame, counter))
    {
      var e := QueueRemove();
      if e == None {
        return None;
      }
      frame := Inc32(frame);
      sent := Some(Outgoing(e.value, frame, counter));
    }

    /** MpusOutputComplete: the interrupt time is kept for the next packet,
        the sent chain is freed and the next entry, if any, goes out. */
    method OutputComplete(now: U64) returns (sent: Option<Entry>)
      requires Valid()
      modifies this`counter, this`sending, this`frame, queue
      ensures Valid() && counter == now
      ensures old(queue.contents) == [] ==> sent == None && !sending && frame == old(frame) && queue.contents == []
      ensures old(queue.contents) != [] ==>
        queue.contents == old(queue.contents[1..]) && sending == old(sending) && frame == Inc32(old(frame))
        && sent == Some(Outgoing(old(queue.contents[0]), frame, now))
    {
      counter := now;
      sent := Output();
    }

    /** MpusSendNewLocked: a new chain holding a copy of the template. */
    method SendNewLocked()
      modifies this`pending, this`pendingHeader, this`pendingAudio, this`bytes
      ensures pending && pendingHeader == header && pendingAudio == [] && bytes == HeaderStructBytes
    {
      pending, pendingHeader, pendingAudio := true, header, [];
      bytes := HeaderStructBytes;
    }

    /** MpusSendAddFragmentLocked: a fragment holding the samples with
        their bytes reversed (MpusCopyAudioLocked) goes on the chain. */
    method AddFragmentLocked(data: seq<Byte>)
      requires PendingOk() && pending && Whole(|data|, sampleChannelBytes)
      modifies this`pendingAudio, this`bytes
      ensures PendingOk() && pendingAudio == old(pendingAudio) + SwapGroups(data, sampleChannelBytes)
    {
      var fragment := new Byte[|data|];
      bytes := bytes + |data|;
      CopyAudio(fragment, data, sampleChannelBytes);
      WholeAdd(|pendingAudio|, |data|, sampleChannelBytes);
      pendingAudio := pendingAudio + fragment[..];
    }

    /** MpusSendLocked: clears stopped and starts a chain if there is none.
        Below the packet size the samples are only appended. Otherwise the
        chain is topped up to exactly MpusPacketBytes and queued, and the
        rest of the samples start the next chain: the queued audio followed
        by the new pending audio is the old pending audio followed by the
        new samples. */
    method SendLocked(buffer: seq<Byte>) returns (queued: bool)
      requires Valid() && Whole(|buffer|, sampleChannelBytes)
      requires |buffer| <= packetBytes - HeaderStructBytes
      modifies this`stopped, this`pending, this`pendingHeader, this`pendingAudio, this`bytes
      modifies queue, queue.buf
      ensures Valid() && !stopped
      ensures var before := if old(pending) then old(pendingAudio) else [];
        var h := if old(pending) then old(pendingHeader) else header;
        var data := SwapGroups(buffer, sampleChannelBytes);
        if HeaderStructBytes + |before| + |buffer| < packetBytes then
          !queued && pending && pendingHeader == h && pendingAudio == before + data
          && queue.contents == old(queue.contents)
        else
          var first := packetBytes - HeaderStructBytes - |before|;
          first <= |data|
          && queue.contents == Added(old(queue.contents), Entry(h, before + data[..first], packetBytes, address))
          && pendingAudio == data[first..] && pending == (first < |data|)
          && (pending ==> pendingHeader == header)
          && queued == (first == |data| || |old(queue.contents)| < MpusQueueSlots)
    {
      stopped := false;
      if !pending {
        SendNewLocked();
        assert pendingAudio == [] && pendingHeader == header && bytes == HeaderStructBytes;
        queued := SendChainLocked(buffer);
      } else {
        queued := SendChainLocked(buffer);
      }
    }

    /** MpusSendLocked once a chain is pending. */
    method SendChainLocked(buffer: seq<Byte>) returns (queued: bool)
      requires Valid() && pending && Whole(|buffer|, sampleChannelBytes)
      requires |buffer| <= packetBytes - HeaderStructBytes
      modifies this`pending, this`pendingHeader, this`pendingAudio, this`bytes
      modifies queue, queue.buf
      ensures Valid()
      ensures var data := SwapGroups(buffer, sampleChannelBytes);
        if old(bytes) + |buffer| < packetBytes then
          !queued && pending && pendingHeader == old(pendingHeader)
          && pendingAudio == old(pendingAudio) + data && queue.contents == old(queue.contents)
        else
          var first := packetBytes - old(bytes);
          first <= |data|
          && queue.contents == Added(old(queue.contents), Entry(old(pendingHeader), old(pendingAudio) + data[..first], packetBytes, address))
          && pendingAudio == data[first..] && pending == (first < |data|)
          && (pending ==> pendingHeader == header)
          && queued == (first == |data| || |old(queue.contents)| < MpusQueueSlots)
    {
      var combined := bytes + |buffer|;
      if combined < packetBytes {
        AddFragmentLocked(buffer);
        return false;
      }
      queued := SendPacketLocked(buffer);
    }

    /** The rest of MpusSendLocked once the samples reach the packet size.
        When nothing remains it returns true even if the queue was full. */
    method SendPacketLocked(buffer: seq<Byte>) returns (queued: bool)
      requires Valid() && pending && Whole(|buffer|, sampleChannelBytes)
      requires packetBytes <= bytes + |buffer| <= bytes + packetBytes - HeaderStructBytes
      modifies this`pending, this`pendingHeader, this`pendingAudio, this`bytes
      modifies queue, queue.buf
      ensures Valid()
      ensures var data := SwapGroups(buffer, sampleChannelBytes);
        var first := packetBytes - old(bytes);
        first <= |data|
        && queue.contents == Added(old(queue.contents), Entry(old(pendingHeader), old(pendingAudio) + data[..first], packetBytes, address))
        && pendingAudio == data[first..] && pending == (first < |data|)
        && (pending ==> pendingHeader == header)
        && queued == (first == |data| || |old(queue.contents)| < MpusQueueSlots)
    {
      var combined := bytes + |buffer|;
      var first := packetBytes - bytes;
      WholeSub(packetBytes - HeaderStructBytes, |pendingAudio|, sampleChannelBytes);
      WholeSub(|buffer|, first, sampleChannelBytes);
      assert buffer == buffer[..first] + buffer[first..];
      SwapGroupsAppend(buffer[..first], buffer[first..], sampleChannelBytes);
      var result := CompletePacketLocked(buffer[..first]);
      var remaining := combined - packetBytes;
      if remaining == 0 {
        return true;
      }
      StartChainLocked(buffer[first..]);
      queued := result;
    }

    /** The samples that fill the chain to exactly the packet size are
        appended and the chain is queued. */
    method CompletePacketLocked(part: seq<Byte>) returns (added: bool)
      requires Valid() && pending && Whole(|part|, sampleChannelBytes) && bytes + |part| == packetBytes
      modifies this`pending, this`pendingAudio, this`bytes
      modifies queue, queue.buf
      ensures Valid() && !pending
      ensures added == (|old(queue.contents)| < MpusQueueSlots)
      ensures queue.contents == Added(old(queue.contents), Entry(pendingHeader,
                           old(pendingAudio) + SwapGroups(part, sampleChannelBytes), packetBytes, address))
    {
      AddFragmentLocked(part);
      added := QueueAddLocked();
    }

    /** The samples left over after a packet start the next chain. */
    method StartChainLocked(rest: seq<Byte>)
      requires Valid() && !pending && Whole(|rest|, sampleChannelBytes)
      requires HeaderStructBytes + |rest| < packetBytes
      modifies this`pending, this`pendingHeader, this`pendingAudio, this`bytes
      ensures Valid() && pending && pendingHeader == header
      ensures pendingAudio == SwapGroups(rest, sampleChannelBytes)
    {
      SendNewLocked();
      AddFragmentLocked(rest);
    }

    /** MpusSend: samples are only taken while active and enabled; when a
        packet was queued and nothing is being sent, sending starts. */
    method Send(buffer: seq<Byte>) returns (output: bool)
      requires Valid() && Whole(|buffer|, sampleChannelBytes)
      requires |buffer| <= packetBytes - HeaderStructBytes
      modifies this`sending, this`stopped, this`pending, this`pendingHeader, this`pendingAudio, this`bytes
      modifies queue, queue.buf
      ensures Valid()
      ensures !(old(active) == 1 && old(enabled) == 1) ==>
        !output && queue.contents == old(queue.contents) && Packet() == old(Packet()) && stopped == old(stopped)
      ensures output ==> !old(sending)
      ensures sending == (old(sending) || output)
    {
      output := false;
      if active == 1 && enabled == 1 {
        var queued := SendLocked(buffer);
        if queued && !sending {
          sending := true;
          output := true;
        }
      }
    }

    /** The halt packet MpusStopLocked queues: the pending chain, or one
        sample of silence if none was pending, with flags 3 (halt and
        lossless). */
    ghost function HaltEntry(p: Pending): Entry
      reads this`header, this`sampleBytes, this`address
    {
      var h := if p.present then p.header else header;
      var audio := if p.present then p.audio else Zeros(sampleBytes);
      Entry(h.(audioFlags := FlagsHaltLossless), audio, HeaderStructBytes + |audio|, address)
    }

    /** MpusStopLocked: marks the stream stopped and queues the halt packet. */
    method StopLocked() returns (queued: bool)
      requires Valid()
      modifies this`stopped, this`pending, this`pendingHeader, this`pendingAudio, this`bytes
      modifies queue, queue.buf
      ensures Valid() && stopped && !pending
      ensures queue.contents == Added(old(queue.contents), HaltEntry(old(Packet())))
      ensures queued == (|old(queue.contents)| < MpusQueueSlots)
    {
      stopped := true;
      HaltChainLocked();
      queued := QueueAddLocked();
    }

    /** MpusStopLocked's chain: with none pending, a new one holding one
        sample of silence; then the halt flag on its header. */
    method HaltChainLocked()
      requires PendingOk()
      modifies this`pending, this`pendingHeader, this`pendingAudio, this`bytes
      ensures PendingOk() && pending
      ensures Entry(pendingHeader, pendingAudio, bytes, address) == HaltEntry(old(Packet()))
    {
      if !pending {
        SendNewLocked();
        assert PendingOk() && pendingAudio == [];
        SwapGroupsZeros(sampleBytes, sampleChannelBytes);
        AddFragmentLocked(Zeros(sampleBytes));
        assert pendingAudio == Zeros(sampleBytes);
      }
      var h := pendingHeader.(audioFlags := FlagsHaltLossless);
      assert FormatOk(h);
      pendingHeader := h;
    }

    /** The stop that MpusStop, MpusUpdateEnabled and MpusUpdateActive
        issue: the halt packet is queued and, if it was queued while
        nothing was being sent, sending starts. */
    method Halt() returns (output: bool)
      requires Valid()
      modifies this`sending, this`stopped, this`pending, this`pendingHeader, this`pendingAudio, this`bytes
      modifies queue, queue.buf
      ensures Valid() && stopped && !pending
      ensures queue.contents == Added(old(queue.contents), HaltEntry(old(Packet())))
      ensures output == (|old(queue.contents)| < MpusQueueSlots && !old(sending))
      ensures sending == (old(sending) || output)
    {
      var queued := StopLocked();
      output := false;
      if queued && !sending {
        sending := true;
        output := true;
      }
    }

    /** MpusStop: one halt packet, only while active, enabled and not yet
        stopped. */
    method Stop() returns (output: bool)
      requires Valid()
      modifies this`sending, this`stopped, this`pending, this`pendingHeader, this`pendingAudio, this`bytes
      modifies queue, queue.buf
      ensures Valid()
      ensures var halt := old(active) == 1 && old(enabled) == 1 && !old(stopped);
        if halt then
          stopped && !pending && queue.contents == Added(old(queue.contents), HaltEntry(old(Packet())))
          && output == (|old(queue.contents)| < MpusQueueSlots && !old(sending))
        else
          !output && stopped == old(stopped) && Packet() == old(Packet()) && queue.contents == old(queue.contents)
      ensures sending == (old(sending) || output)
    {
      output := false;
      if active == 1 && enabled == 1 && !stopped {
        output := Halt();
      }
    }

    /** MpusUpdateEnabled: any nonzero value is 1. Clearing it while active
        and not stopped issues the halt packet. */
    method UpdateEnabled(value: U32) returns (output: bool)
      requires Valid()
      modifies this`enabled, this`sending, this`stopped, this`pending, this`pendingHeader, this`pendingAudio, this`bytes
      modifies queue, queue.buf
      ensures Valid() && enabled == (if value != 0 then 1 else 0)
      ensures var halt := old(enabled) == 1 && value == 0 && old(active) == 1 && !old(stopped);
        if halt then
          stopped && !pending && queue.contents == Added(old(queue.contents), HaltEntry(old(Packet())))
          && output == (|old(queue.contents)| < MpusQueueSlots && !old(sending))
        else
          !output && stopped == old(stopped) && Packet() == old(Packet()) && queue.contents == old(queue.contents)
      ensures sending == (old(sending) || output)
    {
      var v := if value != 0 then 1 else 0;
      output := false;
      if enabled != v {
        if v == 1 {
          enabled := 1;
        } else {
          enabled := 0;
          if active == 1 && !stopped {
            output := Halt();
          }
        }
      }
    }

    /** MpusUpdateActive: the mirror image of MpusUpdateEnabled. */
    method UpdateActive(value: U32) returns (output: bool)
      requires Valid()
      modifies this`active, this`sending, this`stopped, this`pending, this`pendingHeader, this`pendingAudio, this`bytes
      modifies queue, queue.buf
      ensures Valid() && active == (if value != 0 then 1 else 0)
      ensures var halt := old(active) == 1 && value == 0 && old(enabled) == 1 && !old(stopped);
        if halt then
          stopped && !pending && queue.contents == Added(old(queue.contents), HaltEntry(old(Packet())))
          && output == (|old(queue.contents)| < MpusQueueSlots && !old(sending))
        else
          !output && stopped == old(stopped) && Packet() == old(Packet()) && queue.contents == old(queue.contents)
      ensures sending == (old(sending) || output)
    {
      var v := if value != 0 then 1 else 0;
      output := false;
      if active != v {
        if v == 1 {
          active := 1;
        } else {
          active := 0;
          if enabled == 1 && !stopped {
            output := Halt();
          }
        }
      }
    }
  }
}
