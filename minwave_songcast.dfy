// The packetiser of the ohSongcast Windows audio driver (CMiniportWaveCyclic
// in minwave.cpp). Audio from the render stream is cut into Ohm audio
// packets of a fixed size, each one an OHMHEADER followed by PCM with the
// bytes of every sample reversed. Finished packets wait in a 16-slot
// pipeline FifoLite until they are sent, and sent packets are kept in a
// history FifoLite from which a receiver may ask for frames again.
//
// Every method is one step taken under the pipeline spin lock. Where the
// driver releases the lock and then calls PipelineOutput, the method
// returns output == true and PipelineOutput is the caller's next step.
// An MDL chain is modelled by the header it starts with and the audio
// bytes of the fragments that follow it.
module SongcastMinwave {
  import opened Octets
  import opened Fifo
  import opened OhmWire
  import opened OhmMsgDriver
  import opened Pcm
  import opened ResendRequest

  const MaxPipelineMessages: nat := 16
  const MaxHistoryMessages: nat := 100

  /** Packet sizes: the header plus 441 (or 480) frames of 16-bit stereo. */
  const PacketBytes44k: nat := 1828
  const PacketBytes48k: nat := 1984

  const FlagsLossless: bv8 := 2
  const FlagsHaltLossless: bv8 := 3

  // ---------------------------------------------------------------------
  // Sample rate family, latency and timestamps

  /** Whether the header's stored rate belongs to the 44.1 kHz family; the
      driver's media clock is 44100·256 Hz for that family and 48000·256 Hz
      otherwise. This version undoes the byte reversal first. */
  predicate Family44k(storedRate: U32)
  {
    Swap32(storedRate) % 441 == 0
  }

  /** The test as written: % 441 applied to the stored, byte-reversed field. */
  predicate Family44kAsWritten(storedRate: U32)
  {
    storedRate % 441 == 0
  }

  lemma {:induction false} Family44kFollowsRate(rate: U32)
    ensures Family44k(Swap32(rate)) <==> rate % 441 == 0
  {
    Swap32Involution(rate);
  }

  /** At 44100 Hz the test as written picks the 48 kHz clock. */
  lemma Family44kAsWrittenMisses44100()
    ensures !Family44kAsWritten(Swap32(44100)) && Family44k(Swap32(44100))
  {
    Swap32Of44100();
    assert 0x44AC_0000 % 441 != 0;
    Family44kFollowsRate(44100);
  }

  /** 44100 is 0x0000AC44; byte-reversed it is 0x44AC0000. */
  lemma Swap32Of44100()
    ensures Swap32(44100) == 0x44AC_0000
  {
    Swap32OfDigits(44100, 0, 0, 0xAC, 0x44);
  }

  /** UpdateLatencyLocked's multiplier: 256/1000 ticks per millisecond
      per Hz, written as 32/125. */
  function LatencyMultiplier(family44k: bool): nat
  {
    if family44k then 44100 * 32 else 48000 * 32
  }

  /** The latency in media clock ticks: ms times the multiplier in TUint
      arithmetic, then divided by 125. Each case multiplies by a constant. */
  function LatencyTicks(ms: U32, family44k: bool): U32
  {
    if family44k then Trunc32(ms * (44100 * 32)) / 125 else Trunc32(ms * (48000 * 32)) / 125
  }

  lemma LatencyTicksUsesMultiplier(ms: U32, family44k: bool)
    ensures LatencyTicks(ms, family44k) == Trunc32(ms * LatencyMultiplier(family44k)) / 125
  {
  }

  /** iAudioMediaLatency as stored: the ticks byte-reversed. */
  function MediaLatencyField(ms: U32, storedRate: U32): (r: U32)
    ensures Swap32(r) == LatencyTicks(ms, Family44k(storedRate))
  {
    var t := LatencyTicks(ms, Family44k(storedRate));
    Swap32Involution(t);
    Swap32(t)
  }

  /** The same field with the family test as written. */
  function MediaLatencyFieldAsWritten(ms: U32, storedRate: U32): (r: U32)
    ensures Swap32(r) == LatencyTicks(ms, Family44kAsWritten(storedRate))
  {
    var t := LatencyTicks(ms, Family44kAsWritten(storedRate));
    Swap32Involution(t);
    Swap32(t)
  }

  /** The default 100 ms at 44100 Hz: 1128960 ticks of the 44.1 kHz clock
      were meant, 1228800 ticks of the 48 kHz clock are stored. */
  lemma LatencyAt44100()
    ensures Swap32(MediaLatencyField(100, Swap32(44100))) == 1128960
    ensures Swap32(MediaLatencyFieldAsWritten(100, Swap32(44100))) == 1228800
  {
    Family44kAsWrittenMisses44100();
  }

  /** Within 32 bits the latency is ms · clock / 1000 for either clock. */
  lemma {:induction false} LatencyIsClockTicks(ms: U32, rate: U32)
    requires ms * 44100 * 256 < 0x1_0000_0000 && ms * 48000 * 256 < 0x1_0000_0000
    ensures Swap32(MediaLatencyField(ms, Swap32(rate)))
         == ms * (if rate % 441 == 0 then 44100 else 48000) * 256 / 1000
  {
    Family44kFollowsRate(rate);
    var clock := if rate % 441 == 0 then 44100 else 48000;
    var t := if rate % 441 == 0 then ms * 44100 * 32 else ms * 48000 * 32;
    assert LatencyTicks(ms, Family44k(Swap32(rate))) == t / 125;
    assert ms * clock * 256 == 8 * t;
    DivideScaled(t);
  }

  /** 32/125 is 256/1000 in lowest terms. */
  lemma DivideScaled(t: nat)
    ensures (8 * t) / 1000 == t / 125
  {
    var q, r := t / 125, t % 125;
    assert 8 * t == 1000 * q + 8 * r && 8 * r < 1000;
  }

  /** PipelineOutput's timestamp multiplier: media clock ticks per second. */
  function ClockRate(family44k: bool): nat
  {
    if family44k then 44100 * 256 else 48000 * 256
  }

  /** The interrupt time (100 ns units) in media clock ticks: the count
      times the clock rate in 64 bits, divided by 10^7, of which the header
      keeps the low 32 bits. Each case multiplies by a constant. */
  function TimestampTicks(counter: U64, family44k: bool): U32
  {
    if family44k then Trunc32(Trunc64(counter * (44100 * 256)) / 10_000_000)
    else Trunc32(Trunc64(counter * (48000 * 256)) / 10_000_000)
  }

  lemma TimestampTicksUsesClock(counter: U64, family44k: bool)
    ensures TimestampTicks(counter, family44k) == Trunc32(Trunc64(counter * ClockRate(family44k)) / 10_000_000)
  {
  }

  /** The network timestamp as stored: the ticks byte-reversed. */
  function TimestampField(counter: U64, family44k: bool): (r: U32)
    ensures Swap32(r) == TimestampTicks(counter, family44k)
  {
    var t := TimestampTicks(counter, family44k);
    Swap32Involution(t);
    Swap32(t)
  }

  // ---------------------------------------------------------------------
  // Formats and header numbering

  predicate SupportedDepth(depth: U32)
  {
    depth == 8 || depth == 16 || depth == 24 || depth == 32
  }

  /** A header PipelineOutput can divide by: a whole number of bytes per
      sample frame. */
  predicate FormatOk(h: HeaderStruct)
  {
    (h.bitDepth == 8 || h.bitDepth == 16 || h.bitDepth == 24 || h.bitDepth == 32) && h.channels != 0
  }

  /** channels · depth / 8 as PipelineOutput computes it from the header,
      one case per supported depth. */
  function HeaderSampleBytes(h: HeaderStruct): (n: nat)
    requires FormatOk(h)
    ensures n >= 1
  {
    var c := h.channels as int;
    if h.bitDepth == 8 then c else if h.bitDepth == 16 then 2 * c
    else if h.bitDepth == 24 then 3 * c else 4 * c
  }

  lemma HeaderSampleBytesIsProduct(h: HeaderStruct)
    requires FormatOk(h)
    ensures HeaderSampleBytes(h) == h.channels as int * h.bitDepth as int / 8
  {
  }

  /** n / d by repeated subtraction, so that a proof that only carries the
      quotient along stays in linear arithmetic. */
  function Quotient(n: nat, d: nat): (q: nat)
    requires d > 0
    decreases n
  {
    if n < d then 0 else 1 + Quotient(n - d, d)
  }

  lemma {:induction false} QuotientIsDivision(n: nat, d: nat)
    requires d > 0
    ensures Quotient(n, d) == n / d
    decreases n
  {
    if n >= d {
      QuotientIsDivision(n - d, d);
      var q, r := (n - d) / d, (n - d) % d;
      assert n == (q + 1) * d + r;
      DivisionUnique(n, d, q + 1, r);
    }
  }

  /** SetFormatLocked's packet size: ten milliseconds of 16-bit stereo at
      48000 Hz, and at 44100 Hz for every other rate. */
  function PacketBytesFor(rate: U32): (n: nat)
    ensures n - HeaderStructBytes == 4 * (if rate == 48000 then 480 else 441)
  {
    if rate == 48000 then PacketBytes48k else PacketBytes44k
  }

  lemma PacketIsTenMilliseconds(rate: U32)
    requires rate == 44100 || rate == 48000
    ensures PacketBytesFor(rate) == HeaderStructBytes + rate / 100 * 2 * 2
  {
  }

  /** depth / 8: the bytes of one channel of one sample. */
  function ChannelBytes(depth: U32): (n: nat)
    requires SupportedDepth(depth)
    ensures n == depth / 8 && 1 <= n <= 4
  {
    depth / 8
  }

  /** The bytes of one sample frame: a whole number of channel samples. */
  function FrameBytes(sb: nat, channels: nat): (n: nat)
    requires sb > 0
    ensures n == sb * channels && Whole(n, sb)
  {
    WholeMultiple(channels, sb);
    sb * channels
  }

  /** Every supported sample width divides both packet payloads, so a
      packet always ends on a sample boundary. */
  lemma PacketWhole(packetBytes: nat, sb: nat)
    requires packetBytes == PacketBytes44k || packetBytes == PacketBytes48k
    requires 1 <= sb <= 4
    ensures Whole(packetBytes - HeaderStructBytes, sb)
  {
    var payload := packetBytes - HeaderStructBytes;
    if sb == 1 {
      WholeMultiple(payload, 1);
    } else if sb == 2 {
      WholeMultiple(payload / 2, 2);
    } else if sb == 3 {
      WholeMultiple(payload / 3, 3);
    } else {
      WholeMultiple(payload / 4, 4);
    }
  }

  /** The header fields SetFormatLocked and UpdateLatencyLocked write. */
  function FormatHeader(h: HeaderStruct, rate: U32, bitRate: U32, depth: U32, channels: U32, ms: U32): (r: HeaderStruct)
    ensures Swap32(r.sampleRate) == rate && Swap32(r.bitRate) == bitRate
    ensures r.bitDepth == Trunc8(depth) && r.channels == Trunc8(channels)
    ensures r.mediaLatency == MediaLatencyField(ms, r.sampleRate)
    ensures r == h.(sampleRate := r.sampleRate, bitRate := r.bitRate, bitDepth := r.bitDepth,
                    channels := r.channels, mediaLatency := r.mediaLatency)
  {
    Swap32Involution(rate);
    Swap32Involution(bitRate);
    var rateField := Swap32(rate);
    h.(sampleRate := rateField, bitRate := Swap32(bitRate),
       bitDepth := Trunc8(depth), channels := Trunc8(channels),
       mediaLatency := MediaLatencyField(ms, rateField))
  }

  /** The fields PipelineOutput fills in on a packet's first transmission:
      samples, frame, total bytes and both timestamps, each byte-reversed. */
  function Numbered(h: HeaderStruct, bytes: nat, frame: U32, counter: U64): (r: HeaderStruct)
    requires FormatOk(h)
    ensures Swap32(r.audioFrame) == frame
    ensures Swap16(r.totalBytes) == bytes % 0x1_0000
    ensures Swap16(r.audioSamples) == Trunc16(Quotient(Trunc32(bytes - HeaderStructBytes), HeaderSampleBytes(h)))
    ensures r.networkTimestamp == r.mediaTimestamp == TimestampField(counter, Family44k(h.sampleRate))
    ensures r == h.(audioSamples := r.audioSamples, audioFrame := r.audioFrame, totalBytes := r.totalBytes,
                    networkTimestamp := r.networkTimestamp, mediaTimestamp := r.mediaTimestamp)
  {
    var samples := Trunc16(Quotient(Trunc32(bytes - HeaderStructBytes), HeaderSampleBytes(h)));
    var total := Trunc16(bytes);
    Swap16Involution(samples);
    Swap16Involution(total);
    Swap32Involution(frame);
    var ts := TimestampField(counter, Family44k(h.sampleRate));
    h.(audioSamples := Swap16(samples), audioFrame := Swap32(frame),
       totalBytes := Swap16(total), networkTimestamp := ts, mediaTimestamp := ts)
  }

  /** A full 44.1 kHz packet of 16-bit stereo carries 441 samples. */
  lemma FullPacketSamples(h: HeaderStruct, frame: U32, counter: U64)
    requires h.bitDepth == 16 && h.channels == 2
    ensures Swap16(Numbered(h, PacketBytes44k, frame, counter).audioSamples) == 441
    ensures Swap16(Numbered(h, PacketBytes48k, frame, counter).audioSamples) == 480
  {
    QuotientIsDivision(PacketBytes44k - HeaderStructBytes, 4);
    QuotientIsDivision(PacketBytes48k - HeaderStructBytes, 4);
  }

  /** The header PipelineOutput writes as it stands: the timestamp's clock
      is chosen by the family test on the stored, byte-reversed rate. Every
      other field is numbered as in Numbered. */
  function NumberedAsWritten(h: HeaderStruct, bytes: nat, frame: U32, counter: U64): (r: HeaderStruct)
    requires FormatOk(h)
    ensures r.networkTimestamp == r.mediaTimestamp == TimestampField(counter, Family44kAsWritten(h.sampleRate))
    ensures r == Numbered(h, bytes, frame, counter).(networkTimestamp := r.networkTimestamp, mediaTimestamp := r.mediaTimestamp)
  {
    var ts := TimestampField(counter, Family44kAsWritten(h.sampleRate));
    Numbered(h, bytes, frame, counter).(networkTimestamp := ts, mediaTimestamp := ts)
  }

  /** One second (10^7 units of 100 ns) into a 44100 Hz stream the stamp
      should be 11289600 ticks of the 44.1 kHz clock; as written it is
      12288000 ticks of the 48 kHz clock. */
  lemma NumberedAsWrittenMisses44100(h: HeaderStruct, bytes: nat, frame: U32)
    requires FormatOk(h) && h.sampleRate == Swap32(44100)
    ensures Swap32(Numbered(h, bytes, frame, 10_000_000).networkTimestamp) == 11289600
    ensures Swap32(NumberedAsWritten(h, bytes, frame, 10_000_000).networkTimestamp) == 12288000
  {
    Family44kAsWrittenMisses44100();
    assert TimestampTicks(10_000_000, true) == 11289600;
    assert TimestampTicks(10_000_000, false) == 12288000;
  }

  // ---------------------------------------------------------------------
  // Resend matching

  /** The frame number a stored iAudioFrame field stands for. */
  function FrameNumber(stored: U32): U32
  {
    Swap32(stored)
  }

  /** PipelineResend's diff, comparing the requested frame with the
      message's frame number. */
  function FrameDiff(frame: U32, stored: U32): (d: int)
    ensures d == 0 <==> frame == FrameNumber(stored)
  {
    Diff(frame, FrameNumber(stored))
  }

  /** The diff as written: msg->Frame() is the raw, byte-reversed field. */
  function FrameDiffAsWritten(frame: U32, stored: U32): (d: int)
    ensures d == 0 <==> frame == stored
  {
    Diff(frame, stored)
  }

  /** A packet PipelineOutput numbered f is matched by a request for f. */
  lemma {:induction false} NumberedFrameMatches(f: U32)
    ensures FrameDiff(f, Swap32(f)) == 0
  {
    Swap32Involution(f);
  }

  /** As written, a request for frame 1 never matches the packet numbered 1,
      and the signed diff even says the request lies before it. */
  lemma FrameDiffAsWrittenMissesFrame1()
    ensures Swap32(1) == 0x0100_0000
    ensures FrameDiffAsWritten(1, Swap32(1)) == 1 - 0x0100_0000
    ensures FrameDiff(1, Swap32(1)) == 0
  {
    assert Swap32(1) == 0x0100_0000 by {
      Swap32Digits(1);
    }
    assert Sub32(1, 0x0100_0000) == 1 - 0x0100_0000 + 0x1_0000_0000;
    assert ToInt32(1 - 0x0100_0000 + 0x1_0000_0000) == 1 - 0x0100_0000;
    NumberedFrameMatches(1);
  }

  // ---------------------------------------------------------------------
  // Silence (Zeros) is the fragment PipelineStopLocked appends.

  lemma {:induction false} SwapGroupsZeros(n: nat, sb: nat)
    requires sb > 0 && Whole(n, sb)
    ensures SwapGroups(Zeros(n), sb) == Zeros(n)
    decreases n
  {
    if n > 0 {
      SwapGroupsCons(Zeros(n), sb);
      ReverseAt(Zeros(n)[..sb]);
      assert Reverse(Zeros(n)[..sb]) == Zeros(sb);
      assert Zeros(n)[sb..] == Zeros(n - sb);
      SwapGroupsZeros(n - sb, sb);
      assert Zeros(sb) + Zeros(n - sb) == Zeros(n);
    }
  }

  /** The message at the end of q, if any. */
  function LastOf(q: seq<OhmMsg?>): set<OhmMsg?>
  {
    if |q| > 0 then {q[|q| - 1]} else {}
  }

  /** PipelineQueueAddLocked's effect on the pipeline: a new message
      carrying the chain is appended if a slot is free, and nothing changes
      when all 16 are used. */
  ghost predicate Enqueued(q0: seq<OhmMsg?>, q1: seq<OhmMsg?>, h: HeaderStruct, audio: seq<Byte>, bytes: nat)
    reads LastOf(q1)
  {
    if |q0| < MaxPipelineMessages then
      |q1| == |q0| + 1 && q1[..|q0|] == q0 && q1[|q0|] != null
      && q1[|q0|].header == h && q1[|q0|].audio == audio && q1[|q0|].bytes == bytes
    else
      q1 == q0
  }

  /** The PCM header template Init prepares: version 1, audio message,
      a 50-byte audio header, lossless, codec name "PCM   " of 6 bytes and
      every other field zero until the format and packet fill it in. */
  function Template(): (h: HeaderStruct)
    ensures h.majorVersion == 1 && h.msgType == 3 && h.audioHeaderBytes == 50
    ensures h.audioFlags == FlagsLossless && h.codecNameBytes == 6
  {
    HeaderStruct(1, 3, 0, 50, FlagsLossless, 0, 0, 0, 0, 0, 0, 0, 0, 0, 0, 0, 0, 0, 0, 0, 6)
  }

  /** The template after Init's SetFormatLocked(44100, 1411200, 16, 2)
      with the default 100 ms latency. */
  function DefaultHeader(): HeaderStruct
  {
    FormatHeader(Template(), 44100, 1411200, 16, 2, 100)
  }

  /** The fields Init's SetFormatLocked(44100, 1411200, 16, 2) writes at
      the default 100 ms latency, as the constants they work out to: 44100
      and 1411200 byte-reversed, 16 bits, 2 channels, and 1128960 ticks of
      the 44.1 kHz clock byte-reversed. */
  function StartHeader(template: HeaderStruct): (r: HeaderStruct)
    ensures FormatOk(r)
  {
    template.(sampleRate := 0x44AC_0000, bitRate := 0x8088_1500, bitDepth := 16, channels := 2,
              mediaLatency := 0x003A_1100)
  }

  lemma StartHeaderIsFormatHeader(template: HeaderStruct)
    ensures StartHeader(template) == FormatHeader(template, 44100, 1411200, 16, 2, 100)
  {
    var f := FormatHeader(template, 44100, 1411200, 16, 2, 100);
    assert f.sampleRate == 0x44AC_0000 by {
      Swap32Of44100();
    }
    assert f.bitRate == 0x8088_1500 by {
      Swap32OfDigits(1411200, 0x00, 0x15, 0x88, 0x80);
    }
    assert f.mediaLatency == 0x003A_1100 by {
      LatencyAt44100();
      Swap32Involution(MediaLatencyField(100, Swap32(44100)));
      Swap32OfDigits(1128960, 0x00, 0x11, 0x3A, 0x00);
    }
  }

  /** The default header: PCM version 1, 44100 Hz 16-bit stereo at
      1411200 bit/s, and a latency of 1128960 ticks of the 44.1 kHz clock. */
  lemma DefaultHeaderFields()
    ensures var h := DefaultHeader();
      h.majorVersion == 1 && h.msgType == 3 && h.audioHeaderBytes == 50
      && h.audioFlags == FlagsLossless && h.codecNameBytes == 6
      && Swap32(h.sampleRate) == 44100 && Swap32(h.bitRate) == 1411200
      && h.bitDepth == 16 && h.channels == 2
      && Swap32(h.mediaLatency) == 1128960
  {
    var h := DefaultHeader();
    Swap32Involution(h.sampleRate);
    LatencyAt44100();
  }

  /** iPipeline and iHistory, both empty. */
  method NewFifos() returns (q: FifoLite<OhmMsg?>, h: FifoLite<OhmMsg?>)
    ensures fresh(q) && fresh(q.buf) && fresh(h) && fresh(h.buf)
    ensures q.Valid() && q.slots == MaxPipelineMessages && q.contents == []
    ensures h.Valid() && h.slots == MaxHistoryMessages && h.contents == []
  {
    q := new FifoLite<OhmMsg?>(MaxPipelineMessages);
    h := new FifoLite<OhmMsg?>(MaxHistoryMessages);
  }

  /** The values a step leaves alone unless it says otherwise. */
  datatype Settings = Settings(enabled: nat, active: nat, latency: U32, packetBytes: nat,
                               sampleBytes: nat, sampleChannelBytes: nat, header: HeaderStruct,
                               frame: U32, counter: U64)

  /** The packet being filled: iPipelineMdl (present or NULL), the header at
      the start of its chain, the audio after it, iPipelineBytes. */
  datatype Pending = Pending(present: bool, header: HeaderStruct, audio: seq<Byte>, bytes: nat)

  class Miniport {
    var enabled: nat
    var active: nat
    var latency: U32
    var stopped: bool
    var sending: bool
    var packetBytes: nat
    var sampleBytes: nat
    var sampleChannelBytes: nat
    var frame: U32
    var counter: U64
    /** iPipelineHeader: the template each new packet starts from. */
    var header: HeaderStruct
    var pending: bool
    var pendingHeader: HeaderStruct
    var pendingAudio: seq<Byte>
    var bytes: nat
    var outputMsg: OhmMsg?
    /** NewStream's single capture and single render stream. */
    var captureAllocated: bool
    var renderAllocated: bool
    /** iPipeline and iHistory. */
    const queue: FifoLite<OhmMsg?>
    const history: FifoLite<OhmMsg?>

    function Config(): Settings
      reads this`enabled, this`active, this`latency, this`packetBytes, this`sampleBytes
      reads this`sampleChannelBytes, this`header, this`frame, this`counter
    {
      Settings(enabled, active, latency, packetBytes, sampleBytes, sampleChannelBytes, header, frame, counter)
    }

    function Packet(): Pending
      reads this`pending, this`pendingHeader, this`pendingAudio, this`bytes
    {
      Pending(pending, pendingHeader, pendingAudio, bytes)
    }

    ghost predicate QueueOk()
      reads queue, queue.buf
    {
      queue.Valid() && queue.slots == MaxPipelineMessages
      && forall i :: 0 <= i < |queue.contents| ==> queue.contents[i] != null
    }

    /** The history never holds more than 16 messages of its 100 slots. */
    ghost predicate HistoryOk()
      reads history, history.buf
    {
      history.Valid() && history.slots == MaxHistoryMessages
      && |history.contents| <= MaxPipelineMessages
      && forall i :: 0 <= i < |history.contents| ==> history.contents[i] != null
    }

    ghost predicate FormatValid()
      reads this`enabled, this`active, this`sampleChannelBytes, this`sampleBytes, this`packetBytes, this`header
    {
      enabled <= 1 && active <= 1
      && 1 <= sampleChannelBytes <= 4 && Whole(sampleBytes, sampleChannelBytes)
      && (packetBytes == PacketBytes44k || packetBytes == PacketBytes48k)
      && Whole(packetBytes - HeaderStructBytes, sampleChannelBytes)
      && FormatOk(header)
    }

    /** The pending chain: its byte count is the header plus its audio, and
      the audio is whole samples. */
    ghost predicate PendingOk()
      reads this`enabled, this`active, this`sampleChannelBytes, this`sampleBytes, this`packetBytes, this`header
      reads this`pending, this`pendingHeader, this`pendingAudio, this`bytes
    {
      FormatValid()
      && bytes == (if pending then HeaderStructBytes + |pendingAudio| else 0)
      && (pending ==> FormatOk(pendingHeader) && Whole(|pendingAudio|, sampleChannelBytes))
      && (!pending ==> pendingAudio == [])
    }

    ghost predicate Valid()
      reads this`enabled, this`active, this`sampleChannelBytes, this`sampleBytes, this`packetBytes, this`header
      reads this`pending, this`pendingHeader, this`pendingAudio, this`bytes
      reads queue, queue.buf, history, history.buf
    {
      queue != history && queue.buf != history.buf
      && QueueOk() && HistoryOk() && PendingOk()
      && (pending ==> HeaderStructBytes + |pendingAudio| < packetBytes)
    }

    /** CMiniportWaveCyclic::Init: disabled, inactive, latency 100 ms,
        stopped, nothing pending, the PCM header template, then the default
        format 44100 Hz 16-bit stereo. */
    constructor (now: U64)
      ensures Valid() && fresh(queue) && fresh(queue.buf) && fresh(history) && fresh(history.buf)
      ensures enabled == 0 && active == 0 && latency == 100 && frame == 0 && counter == now
      ensures stopped && !sending && !pending && outputMsg == null
      ensures !captureAllocated && !renderAllocated
      ensures queue.contents == [] && history.contents == []
      ensures packetBytes == PacketBytes44k && sampleChannelBytes == 2 && sampleBytes == 4
      ensures header == StartHeader(Template())
    {
      var q, h := NewFifos();
      queue, history := q, h;
      enabled, active, latency := 0, 0, 100;
      stopped, sending := true, false;
      frame, counter := 0, now;
      header := Template();
      pending, pendingAudio, bytes := false, [], 0;
      outputMsg := null;
      captureAllocated, renderAllocated := false, false;
      new;
      SetDefaultFormatLocked();
      assert QueueOk() && HistoryOk();
    }

    /** Init's SetFormatLocked(44100, 1411200, 16, 2). */
    method SetDefaultFormatLocked()
      requires !pending && pendingAudio == [] && bytes == 0 && enabled <= 1 && active <= 1 && latency == 100
      modifies this`header, this`sampleBytes, this`sampleChannelBytes, this`packetBytes
      ensures PendingOk()
      ensures header == StartHeader(old(header))
      ensures packetBytes == PacketBytes44k && sampleChannelBytes == 2 && sampleBytes == 4
    {
      SetFormatLocked(44100, 1411200, 16, 2);
      StartHeaderIsFormatHeader(old(header));
    }

    /** NewStream: at most one capture and one render stream. The format
        check and the stream's own Init are inputs. */
    method NewStream(capture: bool, formatValid: bool, streamInit: bool) returns (ok: bool)
      modifies this`captureAllocated, this`renderAllocated
      ensures ok == (!(if capture then old(captureAllocated) else old(renderAllocated)) && formatValid && streamInit)
      ensures captureAllocated == (old(captureAllocated) || (capture && ok))
      ensures renderAllocated == (old(renderAllocated) || (!capture && ok))
    {
      ok := !(if capture then captureAllocated else renderAllocated);
      ok := ok && formatValid && streamInit;
      if ok {
        if capture {
          captureAllocated := true;
        } else {
          renderAllocated := true;
        }
      }
    }

    /** UpdateLatencyLocked. */
    method UpdateLatency(ms: U32)
      requires Valid()
      modifies this`latency, this`header
      ensures Valid() && latency == ms
      ensures header == old(header).(mediaLatency := MediaLatencyField(ms, header.sampleRate))
    {
      latency := ms;
      header := header.(mediaLatency := MediaLatencyField(ms, header.sampleRate));
    }

    /** SetFormatLocked: the format goes into the template header, byte
        counts follow the depth and channels, and the latency is redone for
        the new rate. Only called with no packet pending. */
    method SetFormatLocked(rate: U32, bitRate: U32, depth: U32, channels: U32)
      requires !pending && pendingAudio == [] && bytes == 0 && enabled <= 1 && active <= 1
      requires SupportedDepth(depth) && 0 < channels < 0x100
      modifies this`header, this`sampleBytes, this`sampleChannelBytes, this`packetBytes
      ensures PendingOk()
      ensures header == FormatHeader(old(header), rate, bitRate, depth, channels, latency)
      ensures sampleChannelBytes == depth / 8 && sampleBytes == depth / 8 * channels
      ensures packetBytes == PacketBytesFor(rate)
    {
      var scb := ChannelBytes(depth);
      var sb := FrameBytes(scb, channels);
      sampleChannelBytes, sampleBytes := scb, sb;
      packetBytes := PacketBytesFor(rate);
      PacketWhole(packetBytes, scb);
      header := FormatHeader(header, rate, bitRate, depth, channels, latency);
      assert FormatOk(header);
      assert Whole(sampleBytes, sampleChannelBytes);
      assert Whole(packetBytes - HeaderStructBytes, sampleChannelBytes);
      assert FormatValid();
    }

    /** SetFormat: a pending packet is queued in the old format first. */
    method SetFormat(rate: U32, bitRate: U32, depth: U32, channels: U32)
      requires Valid() && SupportedDepth(depth) && 0 < channels < 0x100
      modifies this`header, this`sampleBytes, this`sampleChannelBytes, this`packetBytes
      modifies this`pending, this`pendingAudio, this`bytes, queue, queue.buf
      ensures Valid() && !pending
      ensures old(pending) ==> Enqueued(old(queue.contents), queue.contents, old(pendingHeader), old(pendingAudio), old(bytes))
      ensures !old(pending) ==> queue.contents == old(queue.contents)
      ensures header == FormatHeader(old(header), rate, bitRate, depth, channels, latency)
      ensures sampleChannelBytes == depth / 8 && sampleBytes == depth / 8 * channels
      ensures packetBytes == PacketBytesFor(rate)
    {
      if pending {
        var _ := QueueAddLocked();
      }
      SetFormatLocked(rate, bitRate, depth, channels);
    }

    /** UpdateEnabled: any nonzero value is 1. Clearing it while active and
        not stopped issues the halt packet. */
    method UpdateEnabled(value: U32) returns (output: bool)
      requires Valid()
      modifies this`enabled, this`sending, this`stopped, this`pending, this`pendingHeader, this`pendingAudio, this`bytes, queue, queue.buf
      ensures Valid() && enabled == (if value != 0 then 1 else 0)
      ensures var halt := old(enabled) == 1 && value == 0 && old(active) == 1 && !old(stopped);
        if halt then
          stopped && !pending
          && HaltQueued(old(queue.contents), old(Packet()))
          && output == (|old(queue.contents)| < MaxPipelineMessages && !old(sending))
        else
          !output && stopped == old(stopped) && Packet() == old(Packet())
          && queue.contents == old(queue.contents)
      ensures sending == (old(sending) || output)
    {
      var v := if value != 0 then 1 else 0;
      output := false;
      if enabled != v {
        if v == 1 {
          enabled := 1;
        } else {
          enabled := 0;
          if active == 1 && !stopped {
            output := Halt();
          }
        }
      }
    }

    /** UpdateActive: the mirror image of UpdateEnabled. */
    method UpdateActive(value: U32) returns (output: bool)
      requires Valid()
      modifies this`active, this`sending, this`stopped, this`pending, this`pendingHeader, this`pendingAudio, this`bytes, queue, queue.buf
      ensures Valid() && active == (if value != 0 then 1 else 0)
      ensures var halt := old(active) == 1 && value == 0 && old(enabled) == 1 && !old(stopped);
        if halt then
          stopped && !pending
          && HaltQueued(old(queue.contents), old(Packet()))
          && output == (|old(queue.contents)| < MaxPipelineMessages && !old(sending))
        else
          !output && stopped == old(stopped) && Packet() == old(Packet())
          && queue.contents == old(queue.contents)
      ensures sending == (old(sending) || output)
    {
      var v := if value != 0 then 1 else 0;
      output := false;
      if active != v {
        if v == 1 {
          active := 1;
        } else {
          active := 0;
          if enabled == 1 && !stopped {
            output := Halt();
          }
        }
      }
    }

    /** The halt packet StopLocked queues: the pending chain, or one sample
        of silence if none was pending, with flags 3 (halt and lossless). */
    ghost predicate HaltQueued(q0: seq<OhmMsg?>, p: Pending)
      reads this`header, this`sampleBytes, queue, LastOf(queue.contents)
    {
      var h := if p.present then p.header else header;
      var audio := if p.present then p.audio else Zeros(sampleBytes);
      Enqueued(q0, queue.contents, h.(audioFlags := FlagsHaltLossless), audio, HeaderStructBytes + |audio|)
    }

    /** PipelineSendNewLocked: a new chain holding a copy of the template. */
    method SendNewLocked()
      modifies this`pending, this`pendingHeader, this`pendingAudio, this`bytes
      ensures pending && pendingHeader == header && pendingAudio == [] && bytes == HeaderStructBytes
    {
      pending, pendingHeader, pendingAudio := true, header, [];
      bytes := HeaderStructBytes;
    }

    /** PipelineSendAddFragmentLocked: a fragment holding the samples with
        their bytes reversed goes on the end of the chain. */
    method AddFragmentLocked(data: seq<Byte>)
      requires PendingOk() && pending && Whole(|data|, sampleChannelBytes)
      modifies this`pendingAudio, this`bytes
      ensures PendingOk() && pendingAudio == old(pendingAudio) + SwapGroups(data, sampleChannelBytes)
    {
      var fragment := new Byte[|data|];
      bytes := bytes + |data|;
      CopyAudio(fragment, data, sampleChannelBytes);
      WholeAdd(|pendingAudio|, |data|, sampleChannelBytes);
      pendingAudio := pendingAudio + fragment[..];
    }

    /** PipelineQueueAddLocked: the chain becomes a message at the end of
        the pipeline, or is freed when all 16 slots are used. Either way
        nothing is pending afterwards. */
    method QueueAddLocked() returns (added: bool)
      requires queue != history && queue.buf != history.buf
      requires QueueOk() && PendingOk() && pending
      modifies this`pending, this`pendingAudio, this`bytes, queue, queue.buf
      ensures QueueOk() && PendingOk() && !pending
      ensures added == (|old(queue.contents)| < MaxPipelineMessages)
      ensures Enqueued(old(queue.contents), queue.contents, pendingHeader, old(pendingAudio), old(bytes))
    {
      if queue.SlotsUsed() == MaxPipelineMessages {
        pending, pendingAudio, bytes := false, [], 0;
        return false;
      }
      var msg := new OhmMsg(AudioKind);
      msg.CreateAudio(pendingHeader, pendingAudio, bytes);
      queue.Write(msg);
      pending, pendingAudio, bytes := false, [], 0;
      added := true;
    }

    /** PipelineSendLocked: clears stopped and starts a chain if there is
        none. Below the packet size the samples are only appended. Otherwise
        the chain is topped up to exactly the packet size and queued, and
        the rest of the samples start the next chain. No byte is lost or
        repeated: the queued audio followed by the new pending audio is the
        old pending audio followed by the new samples. */
    method SendLocked(buffer: seq<Byte>) returns (queued: bool)
      requires Valid() && Whole(|buffer|, sampleChannelBytes)
      requires |buffer| <= packetBytes - HeaderStructBytes
      modifies this`stopped, this`pending, this`pendingHeader, this`pendingAudio, this`bytes, queue, queue.buf
      ensures Valid() && !stopped
      ensures var before := if old(pending) then old(pendingAudio) else [];
        var h := if old(pending) then old(pendingHeader) else header;
        var data := SwapGroups(buffer, sampleChannelBytes);
        if HeaderStructBytes + |before| + |buffer| < packetBytes then
          !queued && pending && pendingHeader == h && pendingAudio == before + data
          && queue.contents == old(queue.contents)
        else
          var first := packetBytes - HeaderStructBytes - |before|;
          first <= |data|
          && Enqueued(old(queue.contents), queue.contents, h, before + data[..first], packetBytes)
          && pendingAudio == data[first..] && pending == (first < |data|)
          && (pending ==> pendingHeader == header)
          && queued == (first == |data| || |old(queue.contents)| < MaxPipelineMessages)
    {
      ghost var before := if pending then pendingAudio else [];
      ghost var h := if pending then pendingHeader else header;
      stopped := false;
      if !pending {
        SendNewLocked();
      }
      assert pendingAudio == before && pendingHeader == h && bytes == HeaderStructBytes + |before|;
      queued := SendChainLocked(buffer);
    }

    /** PipelineSendLocked once a chain is pending. */
    method SendChainLocked(buffer: seq<Byte>) returns (queued: bool)
      requires Valid() && pending && Whole(|buffer|, sampleChannelBytes)
      requires |buffer| <= packetBytes - HeaderStructBytes
      modifies this`pending, this`pendingHeader, this`pendingAudio, this`bytes, queue, queue.buf
      ensures Valid()
      ensures var data := SwapGroups(buffer, sampleChannelBytes);
        if old(bytes) + |buffer| < packetBytes then
          !queued && pending && pendingHeader == old(pendingHeader)
          && pendingAudio == old(pendingAudio) + data && queue.contents == old(queue.contents)
        else
          var first := packetBytes - old(bytes);
          first <= |data|
          && Enqueued(old(queue.contents), queue.contents, old(pendingHeader), old(pendingAudio) + data[..first], packetBytes)
          && pendingAudio == data[first..] && pending == (first < |data|)
          && (pending ==> pendingHeader == header)
          && queued == (first == |data| || |old(queue.contents)| < MaxPipelineMessages)
    {
      var combined := bytes + |buffer|;
      if combined < packetBytes {
        AddFragmentLocked(buffer);
        return false;
      }
      queued := SendPacketLocked(buffer);
    }

    /** The rest of PipelineSendLocked once the samples reach the packet
        size: the first part of them completes the chain, which is queued,
        and whatever remains starts the next chain. */
    method SendPacketLocked(buffer: seq<Byte>) returns (queued: bool)
      requires Valid() && pending && Whole(|buffer|, sampleChannelBytes)
      requires packetBytes <= bytes + |buffer| <= bytes + packetBytes - HeaderStructBytes
      modifies this`pending, this`pendingHeader, this`pendingAudio, this`bytes, queue, queue.buf
      ensures Valid()
      ensures var data := SwapGroups(buffer, sampleChannelBytes);
        var first := packetBytes - old(bytes);
        first <= |data|
        && Enqueued(old(queue.contents), queue.contents, old(pendingHeader), old(pendingAudio) + data[..first], packetBytes)
        && pendingAudio == data[first..] && pending == (first < |data|)
        && (pending ==> pendingHeader == header)
        && queued == (first == |data| || |old(queue.contents)| < MaxPipelineMessages)
    {
      var combined := bytes + |buffer|;
      var first := packetBytes - bytes;
      WholeSub(packetBytes - HeaderStructBytes, |pendingAudio|, sampleChannelBytes);
      WholeSub(|buffer|, first, sampleChannelBytes);
      assert buffer == buffer[..first] + buffer[first..];
      SwapGroupsAppend(buffer[..first], buffer[first..], sampleChannelBytes);
      var result := CompletePacketLocked(buffer[..first]);
      var remaining := combined - packetBytes;
      if remaining == 0 {
        return true;
      }
      StartChainLocked(buffer[first..]);
      queued := result;
    }

    /** The samples that fill the chain to exactly the packet size are
        appended and the chain is queued. */
    method CompletePacketLocked(part: seq<Byte>) returns (added: bool)
      requires Valid() && pending && Whole(|part|, sampleChannelBytes) && bytes + |part| == packetBytes
      modifies this`pending, this`pendingAudio, this`bytes, queue, queue.buf
      ensures Valid() && !pending
      ensures added == (|old(queue.contents)| < MaxPipelineMessages)
      ensures Enqueued(old(queue.contents), queue.contents, pendingHeader,
                       old(pendingAudio) + SwapGroups(part, sampleChannelBytes), packetBytes)
    {
      AddFragmentLocked(part);
      added := QueueAddLocked();
    }

    /** The samples left over after a packet start the next chain. */
    method StartChainLocked(rest: seq<Byte>)
      requires Valid() && !pending && Whole(|rest|, sampleChannelBytes)
      requires HeaderStructBytes + |rest| < packetBytes
      modifies this`pending, this`pendingHeader, this`pendingAudio, this`bytes
      ensures Valid() && pending && pendingHeader == header
      ensures pendingAudio == SwapGroups(rest, sampleChannelBytes)
    {
      SendNewLocked();
      AddFragmentLocked(rest);
    }

    /** PipelineSend: samples are only taken while active and enabled. */
    method PipelineSend(buffer: seq<Byte>) returns (output: bool)
      requires Valid() && Whole(|buffer|, sampleChannelBytes)
      requires |buffer| <= packetBytes - HeaderStructBytes
      modifies this`sending, this`stopped, this`pending, this`pendingHeader, this`pendingAudio, this`bytes, queue, queue.buf
      ensures Valid()
      ensures !(old(active) == 1 && old(enabled) == 1) ==>
        !output && queue.contents == old(queue.contents) && Packet() == old(Packet()) && stopped == old(stopped)
      ensures output ==> !old(sending)
      ensures sending == (old(sending) || output)
    {
      output := false;
      if active == 1 && enabled == 1 {
        var queued := SendLocked(buffer);
        if queued && !sending {
          sending := true;
          output := true;
        }
      }
    }

    /** PipelineStopLocked: marks the stream stopped and queues the halt
        packet. */
    method StopLocked() returns (queued: bool)
      requires Valid()
      modifies this`stopped, this`pending, this`pendingHeader, this`pendingAudio, this`bytes, queue, queue.buf
      ensures Valid() && stopped && !pending
      ensures HaltQueued(old(queue.contents), old(Packet()))
      ensures queued == (|old(queue.contents)| < MaxPipelineMessages)
    {
      stopped := true;
      if !pending {
        SendNewLocked();
        SwapGroupsZeros(sampleBytes, sampleChannelBytes);
        AddFragmentLocked(Zeros(sampleBytes));
      }
      pendingHeader := pendingHeader.(audioFlags := FlagsHaltLossless);
      queued := QueueAddLocked();
    }

    /** The stop that UpdateEnabled, UpdateActive and PipelineStop issue:
        the halt packet is queued, and if it was queued and nothing is being
        sent, sending starts and PipelineOutput is the caller's next step. */
    method Halt() returns (output: bool)
      requires Valid()
      modifies this`sending, this`stopped, this`pending, this`pendingHeader, this`pendingAudio, this`bytes, queue, queue.buf
      ensures Valid() && stopped && !pending
      ensures HaltQueued(old(queue.contents), old(Packet()))
      ensures output == (|old(queue.contents)| < MaxPipelineMessages && !old(sending))
      ensures sending == (old(sending) || output)
    {
      var queued := StopLocked();
      output := false;
      if queued && !sending {
        sending := true;
        output := true;
      }
    }

    /** PipelineStop: one halt packet, only while active, enabled and not
        yet stopped. */
    method PipelineStop() returns (output: bool)
      requires Valid()
      modifies this`sending, this`stopped, this`pending, this`pendingHeader, this`pendingAudio, this`bytes, queue, queue.buf
      ensures Valid()
      ensures var halt := old(active) == 1 && old(enabled) == 1 && !old(stopped);
        if halt then
          stopped && !pending && HaltQueued(old(queue.contents), old(Packet()))
          && output == (|old(queue.contents)| < MaxPipelineMessages && !old(sending))
        else
          !output && stopped == old(stopped) && Packet() == old(Packet())
          && queue.contents == old(queue.contents)
      ensures sending == (old(sending) || output)
    {
      output := false;
      if active == 1 && enabled == 1 && !stopped {
        output := Halt();
      }
    }

    /** PipelineQueueRemove: the oldest queued message, or none (and the
        sending flag cleared) when the pipeline is empty. A message leaving
        for the first time is kept in the history, whose oldest entry is
        dropped once it holds 16. */
    method QueueRemove() returns (m: OhmMsg?)
      requires Valid()
      modifies this`sending, queue, history, history.buf
      ensures Valid()
      ensures old(queue.contents) == [] ==>
        m == null && !sending && queue.contents == [] && history.contents == old(history.contents)
      ensures old(queue.contents) != [] ==>
        m == old(queue.contents[0]) && m != null && queue.contents == old(queue.contents[1..])
        && sending == old(sending)
        && history.contents == (if m.IsResent() then old(history.contents) else Capped(old(history.contents)) + [m])
    {
      if queue.SlotsUsed() == 0 {
        sending := false;
        return null;
      }
      m := queue.Read();
      if !m.IsResent() {
        if history.SlotsUsed() == MaxPipelineMessages {
          var _ := history.Read();
        }
        history.Write(m);
      }
    }

    /** The history after its oldest entry is dropped to make room. */
    function Capped(h: seq<OhmMsg?>): (r: seq<OhmMsg?>)
      ensures |h| < MaxPipelineMessages ==> r == h
      ensures |h| >= MaxPipelineMessages ==> r == h[1..]
    {
      if |h| == MaxPipelineMessages then h[1..] else if |h| > MaxPipelineMessages then h[1..] else h
    }

    function HeadOf(q: seq<OhmMsg?>): set<OhmMsg?>
    {
      if |q| > 0 then {q[0]} else {}
    }

    /** PipelineOutput: takes the next message. On its first transmission
        it is numbered with the next frame and stamped with the last
        interrupt time; a resent message goes out unchanged. The send itself
        is the caller's. */
    method PipelineOutput() returns (sent: OhmMsg?)
      requires Valid() && (queue.contents != [] ==> FormatOk(queue.contents[0].header))
      modifies this`sending, this`frame, this`outputMsg, queue, history, history.buf
      modifies set m | m in HeadOf(queue.contents) :: m`header
      ensures Valid() && outputMsg == sent
      ensures old(queue.contents) == [] ==>
        sent == null && !sending && frame == old(frame) && queue.contents == []
        && history.contents == old(history.contents)
      ensures old(queue.contents) != [] ==>
        sent == old(queue.contents[0]) && sent != null && queue.contents == old(queue.contents[1..])
        && sending == old(sending)
        && (if Resent(old(queue.contents[0].header)) then
              frame == old(frame) && sent.header == old(queue.contents[0].header)
              && history.contents == old(history.contents)
            else
              frame == Inc32(old(frame))
              && sent.header == Numbered(old(queue.contents[0].header), sent.bytes, frame, counter)
              && history.contents == Capped(old(history.contents)) + [sent])
    {
      sent := QueueRemove();
      outputMsg := sent;
      if sent != null && !sent.IsResent() {
        Number(sent);
      }
    }

    /** The first-transmission branch of PipelineOutput. */
    method Number(m: OhmMsg)
      requires FormatOk(m.header)
      modifies this`frame, m`header
      ensures frame == Inc32(old(frame))
      ensures m.header == Numbered(old(m.header), m.bytes, frame, counter)
    {
      frame := Inc32(frame);
      m.header := Numbered(m.header, m.bytes, frame, counter);
    }

    /** PipelineOutputComplete: the interrupt time is kept for the next
        packet and the sent message is marked resent, so that later sends
        of it (from a resend request) go out unchanged. */
    method OutputComplete(now: U64)
      requires Valid() && outputMsg != null
      modifies this`counter, outputMsg
      ensures Valid() && counter == now && outputMsg.IsResent()
      ensures outputMsg.header == WithResent(old(outputMsg.header), true)
    {
      counter := now;
      outputMsg.SetResent(true);
    }

    /** ResendLocked: a message goes back on the pipeline if a slot is free. */
    method ResendLocked(m: OhmMsg)
      returns (ok: bool)
      requires QueueOk()
      modifies queue, queue.buf
      ensures QueueOk() && ok == (|old(queue.contents)| < MaxPipelineMessages)
      ensures queue.contents == old(queue.contents) + (if ok then [m] else [])
    {
      if queue.SlotsUsed() != MaxPipelineMessages {
        queue.Write(m);
        return true;
      }
      return false;
    }

    /** The pipeline is q0 followed by messages taken from h0, each of
        them carrying a frame that the request asks for. */
    ghost predicate ResentFrom(q0: seq<OhmMsg?>, h0: seq<OhmMsg?>, request: seq<Byte>)
      reads queue, queue.contents
    {
      |q0| <= |queue.contents| && queue.contents[..|q0|] == q0
      && forall k :: |q0| <= k < |queue.contents| ==>
        queue.contents[k] in h0 && queue.contents[k] != null
        && Requested(request, FrameNumber(queue.contents[k].header.audioFrame))
    }

    /** One turn of PipelineResend's history loop: the oldest history entry
        is read, matched against the request, re-queued on a hit, and
        written back as the newest entry. */
    method ResendEntry(request: seq<Byte>, pos0: nat, frames0: nat, frame0: U32, found0: bool,
                       ghost q0: seq<OhmMsg?>, ghost h0: seq<OhmMsg?>)
      returns (pos: nat, frames: nat, frame: U32, found: bool, resent: bool)
      requires queue != history && queue.buf != history.buf && HistoryOk() && QueueOk()
      requires |history.contents| > 0 && history.contents[0] in h0
      requires ResentFrom(q0, h0, request)
      requires !found0 ==> Cursor(request, pos0, frames0, frame0)
      modifies queue, queue.buf, history, history.buf
      ensures HistoryOk() && QueueOk() && ResentFrom(q0, h0, request)
      ensures history.contents == old(history.contents[1..]) + [old(history.contents[0])]
      ensures |queue.contents| == |old(queue.contents)| + (if resent then 1 else 0)
      ensures !found ==> Cursor(request, pos, frames, frame)
    {
      var msg := history.Read();
      var hit;
      pos, frames, frame, found, hit := MatchFrame(request, FrameNumber(msg.header.audioFrame), pos0, frames0, frame0, found0);
      resent := false;
      if hit {
        resent := ResendLocked(msg);
      }
      history.Write(msg);
    }

    /** PipelineResend: the request is a list of big-endian frame numbers in
        ascending order. Every history entry is read and written back once,
        so the history is unchanged; a history message is re-queued only if
        its frame was requested and a pipeline slot is free. */
    method PipelineResend(request: seq<Byte>) returns (output: bool)
      requires Valid() && |request| >= 4
      modifies this`sending, queue, queue.buf, history, history.buf
      ensures Valid()
      ensures history.contents == old(history.contents)
      ensures ResentFrom(old(queue.contents), old(history.contents), request)
      ensures output == (|queue.contents| > |old(queue.contents)| && !old(sending))
      ensures sending == (old(sending) || output)
    {
      var resent := ResendFrames(request);
      output := false;
      if resent > 0 && !sending {
        sending := true;
        output := true;
      }
    }

    /** PipelineResend's walk over the history: every entry is read and
        written back once, and each requested one is re-queued while a
        pipeline slot is free. */
    method ResendFrames(request: seq<Byte>) returns (resent: nat)
      requires queue != history && queue.buf != history.buf && HistoryOk() && QueueOk()
      requires |request| >= 4
      modifies queue, queue.buf, history, history.buf
      ensures HistoryOk() && QueueOk() && history.contents == old(history.contents)
      ensures ResentFrom(old(queue.contents), old(history.contents), request)
      ensures |queue.contents| == |old(queue.contents)| + resent
    {
      ghost var h0 := history.contents;
      ghost var q0 := queue.contents;
      resent := 0;
      var frames: nat := |request| / 4;
      var pos := 0;
      var frame := RequestFrame(request, 0);
      frames := frames - 1;
      var found := false;
      var count := history.SlotsUsed();
      var i := 0;
      while i < count
        invariant 0 <= i <= count == |h0|
        invariant history.contents == h0[i..] + h0[..i]
        invariant HistoryOk() && QueueOk()
        invariant |queue.contents| == |q0| + resent && ResentFrom(q0, h0, request)
        invariant !found ==> Cursor(request, pos, frames, frame)
      {
        assert history.contents[0] == h0[i];
        var ok;
        pos, frames, frame, found, ok := ResendEntry(request, pos, frames, frame, found, q0, h0);
        if ok {
          resent := resent + 1;
        }
        assert h0[i + 1..] + h0[..i + 1] == h0[i..][1..] + h0[..i] + [h0[i]];
        i := i + 1;
      }
      assert h0[..count] == h0 && h0[count..] == [];
    }
  }
}
