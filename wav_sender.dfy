// WavSender (WavSender/WavSender.cpp): a test sender that loops the PCM data
// of a WAV file. PcmSender cuts the data into packets sized for 5 ms of audio
// at the chosen speed, sends them on a timer whose period corrects for drift,
// and main validates the WAV header and converts the samples to network
// order. The OhmSender it drives is seen through the calls made on it.
module WavSender {
  import opened Octets

  const PeriodMs: nat := 5
  const SpeedNormal: nat := 100
  const SpeedMin: nat := 75
  const SpeedMax: nat := 150
  const MaxPacketBytes: nat := 4096

  // ---------------------------------------------------------------------
  // Packet sizing

  /** The sizes CalculatePacketBytes derives. */
  datatype Sizing = Sizing(packetBytes: nat, packetSamples: nat, packetTime: nat)

  /** The bytes of 5 ms of audio, capped at 4096 (the product is a 32-bit
      unsigned value in the source). */
  function NormalBytes(sampleRate: U32, frameBytes: nat): (n: nat)
    ensures n <= MaxPacketBytes
  {
    var n := Trunc32(sampleRate * frameBytes * PeriodMs) / 1000;
    if n > MaxPacketBytes then MaxPacketBytes else n
  }

  /** The bytes the speed asks for, capped at 4096 (the product with the
      speed percentage is a 32-bit unsigned value in the source). */
  function SpeedBytes(sampleRate: U32, frameBytes: nat, speed: U32): (n: nat)
    ensures n <= MaxPacketBytes
    ensures speed == SpeedNormal ==> n == NormalBytes(sampleRate, frameBytes)
  {
    var n := Trunc32(NormalBytes(sampleRate, frameBytes) * speed) / 100;
    if n > MaxPacketBytes then MaxPacketBytes else n
  }

  /** Over the speeds main allows the product does not wrap, so a faster
      speed never asks for fewer bytes. */
  lemma SpeedBytesMonotone(sampleRate: U32, frameBytes: nat, slower: U32, faster: U32)
    requires slower <= faster <= SpeedMax
    ensures SpeedBytes(sampleRate, frameBytes, slower) <= SpeedBytes(sampleRate, frameBytes, faster)
  {
    var norm := NormalBytes(sampleRate, frameBytes);
    MulMono(norm, slower, faster);
    MulMono(faster, norm, MaxPacketBytes);
    MulMono(MaxPacketBytes, faster, SpeedMax);
    CappedPercentMono(norm * slower, norm * faster);
  }

  /** Below 2^32 the truncation keeps the product, and a larger product
      asks for at least as many bytes. */
  lemma CappedPercentMono(low: nat, high: nat)
    requires low <= high < 0x1_0000_0000
    ensures (var n := Trunc32(low) / 100; if n > MaxPacketBytes then MaxPacketBytes else n)
         <= (var n := Trunc32(high) / 100; if n > MaxPacketBytes then MaxPacketBytes else n)
  {
    DivMono(low, high, 100);
  }

  lemma MulMono(a: nat, b: nat, c: nat)
    requires b <= c
    ensures a * b <= a * c
  {
  }

  lemma DivMono(a: nat, b: nat, d: nat)
    requires a <= b && d > 0
    ensures a / d <= b / d
  {
    var qa, qb := a / d, b / d;
    assert a == qa * d + a % d && b == qb * d + b % d;
    assert qa * d - qb * d == (qa - qb) * d;
    if qa > qb {
      MulAtLeast(qa - qb, d);
      assert false;
    }
  }

  /** CalculatePacketBytes: the packet is the largest whole number of
      sample frames within the bytes the speed asks for; its time is that
      of the normal packet, in microseconds, whatever the speed. */
  function Sizes(sampleRate: U32, frameBytes: nat, speed: U32): (z: Sizing)
    requires frameBytes > 0 && sampleRate >= 10
    ensures z.packetBytes == z.packetSamples * frameBytes <= MaxPacketBytes
    ensures z.packetBytes <= SpeedBytes(sampleRate, frameBytes, speed) < z.packetBytes + frameBytes
    ensures z.packetTime == PacketTime(sampleRate, frameBytes)
  {
    var bytes := SpeedBytes(sampleRate, frameBytes, speed);
    DivBounds(bytes, frameBytes);
    var samples := bytes / frameBytes;
    WholeFrames(bytes, frameBytes);
    MulMono(frameBytes, 0, samples);
    Sizing(samples * frameBytes, samples, PacketTime(sampleRate, frameBytes))
  }

  /** Whole frames: the bytes rounded down to a multiple of the frame. */
  lemma WholeFrames(bytes: nat, frameBytes: nat)
    requires frameBytes > 0
    ensures (bytes / frameBytes) * frameBytes <= bytes < (bytes / frameBytes) * frameBytes + frameBytes
  {
    DivisionUnique(bytes, frameBytes, bytes / frameBytes, bytes % frameBytes);
  }

  /** The microseconds of audio in a packet at normal speed, rounded. */
  function PacketTime(sampleRate: U32, frameBytes: nat): nat
    requires frameBytes > 0 && sampleRate >= 10
  {
    var norm := NormalBytes(sampleRate, frameBytes);
    DivBounds(norm, frameBytes);
    var samples := norm / frameBytes;
    DivBounds(samples * 1000000, sampleRate / 10);
    var tenths := samples * 1000000 / (sampleRate / 10);
    (tenths + 5) / 10
  }

  /** A quotient of naturals lies between zero and the dividend. */
  lemma DivBounds(n: nat, d: nat)
    requires d > 0
    ensures 0 <= n / d <= n
  {
    DivMono(0, n, d);
    MulAtLeast(d, n / d);
  }

  // ---------------------------------------------------------------------
  // Looping the data

  /** n bytes of the data played in a loop, from position start on. */
  function Cycle(d: seq<Byte>, start: nat, n: nat): (c: seq<Byte>)
    requires |d| > 0 && start <= |d|
    ensures |c| == n
    decreases n, start
  {
    if start + n <= |d| then d[start..start + n]
    else d[start..] + Cycle(d, 0, n - (|d| - start))
  }

  /** Where the loop stands after n more bytes from start, in (0, |d|]
      once it has wrapped. */
  function CycleEnd(size: nat, start: nat, n: nat): (e: nat)
    requires size > 0 && start <= size
    ensures e <= size
  {
    if start + n <= size then start + n else (start + n - 1) % size + 1
  }

  /** The bytes a sequence of sender calls puts on the wire. */
  function AudioOf(es: seq<Event>): seq<Byte>
  {
    if |es| == 0 then [] else AudioOf(es[..|es| - 1]) + (if es[|es| - 1].Audio? then es[|es| - 1].bytes else [])
  }

  /** The data k times over. */
  function Repeat(d: seq<Byte>, k: nat): (r: seq<Byte>)
    ensures |r| == k * |d|
  {
    if k == 0 then [] else Repeat(d, k - 1) + d
  }

  /** Looping from the start for whole laps and then part of a lap. */
  lemma {:induction false} CycleLaps(d: seq<Byte>, k: nat, r: nat)
    requires 0 < r <= |d|
    ensures Cycle(d, 0, k * |d| + r) == Repeat(d, k) + d[..r]
  {
    if k > 0 {
      assert k * |d| + r == (k - 1) * |d| + r + |d|;
      CycleLaps(d, k - 1, r);
      calc {
        Cycle(d, 0, k * |d| + r);
        d + Cycle(d, 0, (k - 1) * |d| + r);
        d + (Repeat(d, k - 1) + d[..r]);
        { RepeatFront(d, k); }
        Repeat(d, k) + d[..r];
      }
    }
  }

  /** Repeat adds a lap at either end. */
  lemma {:induction false} RepeatFront(d: seq<Byte>, k: nat)
    requires k > 0
    ensures d + Repeat(d, k - 1) == Repeat(d, k)
  {
    if k > 1 {
      RepeatFront(d, k - 1);
    }
  }

  /** A packet that wraps is the rest of the data, whole laps, and the start
      of the data up to where the loop then stands. */
  lemma WrapCycle(d: seq<Byte>, start: nat, packet: nat, remaining: nat, laps: nat)
    requires 0 < remaining <= |d| && start <= |d| < start + packet
    requires packet + start - |d| - remaining == laps * |d|
    ensures Cycle(d, start, packet) == d[start..] + (Repeat(d, laps) + d[..remaining])
    ensures CycleEnd(|d|, start, packet) == remaining
  {
    CycleLaps(d, laps, remaining);
    assert (laps + 1) * |d| == laps * |d| + |d|;
    DivisionUnique(start + packet - 1, |d|, laps + 1, remaining - 1);
  }

  lemma Concat3<T>(s: seq<T>, a: seq<T>, b: seq<T>, c: seq<T>)
    ensures s + a + b + c == s + (a + (b + c))
  {
  }

  /** The calls PcmSender makes on the OhmSender and its driver: the audio
      format and the enabled flag, the track (with its sample count) and the
      metatext, and audio bytes. */
  datatype Event =
    | FormatSet(sampleRate: U32, bitRate: U32, channels: U16, bitDepth: U16, lossless: bool, codec: string)
    | EnabledSet(value: bool)
    | TrackSet(samples: nat)
    | MetatextSet
    | Audio(bytes: seq<Byte>)

  /** The ranges of the data one packet sends, as written: up to the end of
      the data, then the remainder from its start, without checking that
      the remainder fits in the data. */
  function WrapAsWritten(index: nat, packet: nat, total: nat): (ranges: seq<(nat, nat)>)
    requires index <= total
  {
    if index + packet <= total then [(index, packet)]
    else [(index, total - index), (0, packet + index - total)]
  }

  /** With 100 bytes of data and 880-byte packets (44.1 kHz stereo 16-bit),
      the first packet's second range runs 680 bytes past the data; an
      empty data chunk reads a whole packet from it. */
  lemma ShortDataAsWritten()
    ensures var r := WrapAsWritten(0, 880, 100); |r| == 2 && r[1].0 + r[1].1 > 100
    ensures var r := WrapAsWritten(0, 880, 0); |r| == 2 && r[1].0 + r[1].1 > 0
  {
  }

  /** The sender's timer log entry and drift state after one tick. */
  datatype Timing = Timing(offsetUs: Int32, periodMs: nat)

  type Int32 = x: int | -0x8000_0000 <= x < 0x8000_0000

  /** Conversion to a signed 32-bit value, two's complement. */
  function ToInt32(x: int): (r: Int32)
    ensures -0x8000_0000 <= x < 0x8000_0000 ==> r == x
    ensures (r - x) % 0x1_0000_0000 == 0
  {
    var m := x % 0x1_0000_0000;
    if m >= 0x8000_0000 then m - 0x1_0000_0000 else m
  }

  /** C division, which truncates toward zero. */
  function TruncDiv(a: int, b: nat): (q: int)
    requires b > 0
    ensures a >= 0 ==> q == a / b
    ensures a < 0 ==> q == -((-a) / b)
  {
    if a >= 0 then a / b else -((-a) / b)
  }

  /** The next timer period for a running offset from the ideal time:
      shorter when late by more than 1 ms (never under 1 ms), 1 ms longer
      when early by more than 1 ms, the 5 ms period otherwise. */
  function Period(offsetUs: Int32): (ms: nat)
    ensures 1 <= ms <= PeriodMs + 1
    ensures ms < PeriodMs <==> offsetUs < -1000
    ensures ms > PeriodMs <==> offsetUs > 1000
    ensures offsetUs <= -5000 ==> ms == 1
    ensures -5000 < offsetUs < -1000 ==> ms == PeriodMs + TruncDiv(offsetUs, 1000)
  {
    if offsetUs < -1000 then
      var lateMs := TruncDiv(offsetUs, 1000);
      if lateMs < 1 - PeriodMs as int then 1 else (PeriodMs as int + lateMs) as nat
    else if offsetUs > 1000 then PeriodMs + 1
    else PeriodMs
  }

  /** The drift correction of TimerExpired: the first tick, and a clock
      that went back, keep the 5 ms period and the offset; otherwise the
      offset drops by how much longer than a packet's time the tick took. */
  function Retimed(lastUs: U64, nowUs: U64, packetTime: nat, offsetUs: Int32): (t: Timing)
    ensures lastUs == 0 || lastUs >= nowUs ==> t == Timing(offsetUs, PeriodMs)
    ensures lastUs != 0 && lastUs < nowUs ==> t.periodMs == Period(t.offsetUs)
    ensures lastUs != 0 && lastUs < nowUs ==> (t.offsetUs - (offsetUs - (nowUs - lastUs - packetTime))) % 0x1_0000_0000 == 0
  {
    if lastUs != 0 && lastUs < nowUs then
      var diff := ToInt32(nowUs - lastUs - packetTime);
      var offset := ToInt32(offsetUs - diff);
      assert (offset - (offsetUs - (nowUs - lastUs - packetTime))) % 0x1_0000_0000 == 0 by {
        assert offset - (offsetUs - (nowUs - lastUs - packetTime))
          == (offset - (offsetUs - diff)) - (diff - (nowUs - lastUs - packetTime));
      }
      Timing(offset, Period(offset))
    else Timing(offsetUs, PeriodMs)
  }

  /** PcmSender: the data it loops, the format, and its state: paused, the
      speed, the read index, the packet sizes, the clock of the last tick
      and the running offset; with the calls it made on the sender and the
      timer periods it set. */
  class PcmSender {
    const data: seq<Byte>
    const sampleCount: nat
    const sampleRate: U32
    const bitRate: U32
    const channels: U16
    const bitDepth: U16
    const frameBytes: nat
    const totalBytes: nat
    var paused: bool
    var speed: U32
    var index: nat
    var sizing: Sizing
    var lastTimeUs: U64
    var timeOffsetUs: Int32
    var events: seq<Event>
    var timer: seq<nat>

    /** The read index is within the data, and the packet sizes are those
        of the current speed. */
    predicate Valid()
      reads this`index, this`sizing, this`speed
    {
      Looping() && frameBytes > 0 && sampleRate >= 10
      && sizing == Sizes(sampleRate, frameBytes, speed)
    }

    /** The read index is within the data, which is not empty. */
    predicate Looping()
      reads this`index
    {
      0 < totalBytes <= |data| && index <= totalBytes
    }

    /** The constructor: the data length follows from the sample count and
        the format; playing starts at the normal speed from the start. */
    constructor (data: seq<Byte>, sampleCount: nat, sampleRate: U32, bitRate: U32, channels: U16, bitDepth: U16)
      requires channels * bitDepth / 8 > 0 && sampleRate >= 10
      requires 0 < Trunc32(sampleCount * channels * bitDepth) / 8 <= |data|
      ensures Valid() && !paused && speed == SpeedNormal && index == 0
      ensures totalBytes == Trunc32(sampleCount * channels * bitDepth) / 8
      ensures this.sampleRate == sampleRate && this.bitRate == bitRate
      ensures this.channels == channels && this.bitDepth == bitDepth
      ensures lastTimeUs == 0 && timeOffsetUs == 0 && events == [] && timer == []
    {
      this.data, this.sampleCount, this.sampleRate := data, sampleCount, sampleRate;
      this.bitRate, this.channels, this.bitDepth := bitRate, channels, bitDepth;
      frameBytes := channels * bitDepth / 8;
      totalBytes := Trunc32(sampleCount * channels * bitDepth) / 8;
      paused, speed, index := false, SpeedNormal, 0;
      sizing := Sizes(sampleRate, channels * bitDepth / 8, SpeedNormal);
      lastTimeUs, timeOffsetUs, events, timer := 0, 0, [], [];
    }

    /** Start: the driver is told the file's format (lossless, codec
        "WAV"), the sender is enabled, and the timer is set for the first
        packet. No audio is sent yet. */
    method Start()
      modifies this`events, this`timer
      ensures events == old(events) + [FormatSet(sampleRate, bitRate, channels, bitDepth, true, "WAV"), EnabledSet(true)]
      ensures AudioOf(events) == AudioOf(old(events))
      ensures timer == old(timer) + [PeriodMs]
    {
      Announce(FormatSet(sampleRate, bitRate, channels, bitDepth, true, "WAV"));
      Announce(EnabledSet(true));
      timer := timer + [PeriodMs];
    }

    /** Pause toggles; resuming forgets the last tick and the offset and
        sets the timer again. */
    method Pause()
      modifies this`paused, this`lastTimeUs, this`timeOffsetUs, this`timer
      ensures paused == !old(paused)
      ensures !paused ==> lastTimeUs == 0 && timeOffsetUs == 0 && timer == old(timer) + [PeriodMs]
      ensures paused ==> lastTimeUs == old(lastTimeUs) && timeOffsetUs == old(timeOffsetUs) && timer == old(timer)
    {
      if paused {
        paused, lastTimeUs, timeOffsetUs := false, 0, 0;
        timer := timer + [PeriodMs];
      } else {
        paused := true;
      }
    }

    /** Restart: play from the start of the data. */
    method Restart()
      requires Valid()
      modifies this`index
      ensures Valid() && index == 0
    {
      index := 0;
    }

    /** SetSpeed: the packet sizes are recalculated for the new speed. */
    method SetSpeed(value: U32)
      requires Valid()
      modifies this`speed, this`sizing
      ensures Valid() && speed == value
    {
      speed := value;
      sizing := Sizes(sampleRate, frameBytes, value);
    }

    /** The audio part of TimerExpired, with the wrap completed: the next
        packet's bytes of the looped data are sent, the track is set again
        each time the loop restarts, and the index moves on. */
    method SendPacket()
      requires Valid()
      modifies this`events, this`index
      ensures Valid() && old(events) <= events
      ensures AudioOf(events) == AudioOf(old(events)) + Cycle(data[..totalBytes], old(index), sizing.packetBytes)
      ensures index == CycleEnd(totalBytes, old(index), sizing.packetBytes)
    {
      if index + sizing.packetBytes <= totalBytes {
        assert data[..totalBytes][index..index + sizing.packetBytes] == data[index..index + sizing.packetBytes];
        Emit(data[index..index + sizing.packetBytes]);
        index := index + sizing.packetBytes;
      } else {
        Wrap(sizing.packetBytes);
      }
    }

    /** The packet that runs past the end of the data: the rest of the data,
        then as many whole laps as the packet still holds, then the start of
        the next lap, with the track set at each lap. */
    method Wrap(packet: nat)
      requires Looping() && index + packet > totalBytes
      modifies this`events, this`index
      ensures Looping() && old(events) <= events
      ensures AudioOf(events) == AudioOf(old(events)) + Cycle(data[..totalBytes], old(index), packet)
      ensures index == CycleEnd(totalBytes, old(index), packet)
    {
      ghost var d := data[..totalBytes];
      ghost var start := index;
      ghost var sent := AudioOf(events);
      assert data[index..totalBytes] == d[start..];
      Emit(data[index..totalBytes]);
      Announce(TrackSet(sampleCount));
      ghost var first := AudioOf(events);
      var remaining := packet + index - totalBytes;
      ghost var laps;
      remaining, laps := Laps(remaining);
      ghost var whole := AudioOf(events);
      assert whole == first + Repeat(d, laps);
      assert data[..remaining] == d[..remaining];
      Emit(data[..remaining]);
      WrapCycle(d, start, packet, remaining, laps);
      Concat3(sent, d[start..], Repeat(d, laps), d[..remaining]);
      index := remaining;
    }

    /** The whole laps of the data a packet still holds, each followed by
        the track set again; what is left of the packet is under one lap. */
    method Laps(packetRest: nat) returns (remaining: nat, ghost laps: nat)
      requires Looping() && packetRest > 0
      modifies this`events
      ensures old(events) <= events
      ensures 0 < remaining <= totalBytes
      ensures packetRest == laps * totalBytes + remaining
      ensures AudioOf(events) == AudioOf(old(events)) + Repeat(data[..totalBytes], laps)
    {
      remaining, laps := packetRest, 0;
      while remaining > totalBytes
        invariant 0 < remaining
        invariant old(events) <= events
        invariant AudioOf(events) == AudioOf(old(events)) + Repeat(data[..totalBytes], laps)
        invariant packetRest == laps * totalBytes + remaining
        decreases remaining
      {
        Emit(data[..totalBytes]);
        Announce(TrackSet(sampleCount));
        assert (laps + 1) * totalBytes == laps * totalBytes + totalBytes;
        remaining := remaining - totalBytes;
        laps := laps + 1;
      }
    }

    /** One audio call: its bytes follow those sent so far. */
    method Emit(bytes: seq<Byte>)
      modifies this`events
      ensures events == old(events) + [Audio(bytes)]
      ensures AudioOf(events) == AudioOf(old(events)) + bytes
    {
      events := events + [Audio(bytes)];
    }

    /** A call that sends no audio. */
    method Announce(e: Event)
      requires !e.Audio?
      modifies this`events
      ensures events == old(events) + [e]
      ensures AudioOf(events) == AudioOf(old(events))
    {
      events := events + [e];
    }

    /** TimerExpired at the given clock reading: nothing while paused;
        otherwise the track and metatext are set when the loop is at its
        start, a packet is sent and the timer set by the drift correction. */
    method TimerExpired(nowUs: U64)
      requires Valid()
      modifies this`events, this`index, this`timeOffsetUs, this`timer, this`lastTimeUs
      ensures Valid() && old(events) <= events
      ensures old(paused) ==> (events == old(events) && index == old(index) && timer == old(timer)
        && lastTimeUs == old(lastTimeUs) && timeOffsetUs == old(timeOffsetUs))
      ensures !old(paused) && old(index) == 0 ==> (|events| >= |old(events)| + 2
        && events[|old(events)|] == TrackSet(sampleCount) && events[|old(events)| + 1] == MetatextSet)
      ensures !old(paused) ==> (AudioOf(events) == AudioOf(old(events)) + Cycle(data[..totalBytes], old(index), sizing.packetBytes)
        && index == CycleEnd(totalBytes, old(index), sizing.packetBytes))
      ensures !old(paused) ==> (var t := Retimed(old(lastTimeUs), nowUs, sizing.packetTime, old(timeOffsetUs));
        timeOffsetUs == t.offsetUs && timer == old(timer) + [t.periodMs] && lastTimeUs == nowUs)
    {
      if paused {
        return;
      }
      if index == 0 {
        Announce(TrackSet(sampleCount));
        Announce(MetatextSet);
      }
      ghost var announced := events;
      SendPacket();
      var t := Retimed(lastTimeUs, nowUs, sizing.packetTime, timeOffsetUs);
      timeOffsetUs, timer, lastTimeUs := t.offsetUs, timer + [t.periodMs], nowUs;
    }
  }

  // ---------------------------------------------------------------------
  // Speed keys

  /** The speed main keeps after the keys pressed, until 'q': 'f' and 's'
      step within [75, 150], 'n' returns to normal. */
  function SpeedAfter(speed: nat, keys: seq<char>): (s: nat)
    requires SpeedMin <= speed <= SpeedMax
    ensures SpeedMin <= s <= SpeedMax
    ensures |keys| > 0 && keys[0] == 'n' && (|keys| == 1 || keys[1] == 'q') ==> s == SpeedNormal
    decreases |keys|
  {
    if |keys| == 0 || keys[0] == 'q' then speed
    else
      var next := if keys[0] == 'f' && speed < SpeedMax then speed + 1
                  else if keys[0] == 's' && speed > SpeedMin then speed - 1
                  else if keys[0] == 'n' then SpeedNormal
                  else speed;
      SpeedAfter(next, keys[1..])
  }

  /** main's key loop, as far as the speed goes. */
  method SpeedKeys(keys: seq<char>) returns (speed: nat)
    ensures speed == SpeedAfter(SpeedNormal, keys)
  {
    speed := SpeedNormal;
    var i := 0;
    while i < |keys| && keys[i] != 'q'
      invariant i <= |keys| && SpeedMin <= speed <= SpeedMax
      invariant SpeedAfter(speed, keys[i..]) == SpeedAfter(SpeedNormal, keys)
    {
      var key := keys[i];
      if key == 'f' {
        if speed < SpeedMax {
          speed := speed + 1;
        }
      }
      if key == 's' {
        if speed > SpeedMin {
          speed := speed - 1;
        }
      }
      if key == 'n' {
        speed := SpeedNormal;
      }
      assert keys[i..][1..] == keys[i + 1..];
      i := i + 1;
    }
  }

  // ---------------------------------------------------------------------
  // The WAV file

  /** The format main reads from the 44-byte header. */
  datatype WavFormat = WavFormat(channels: U16, sampleRate: U32, byteRate: U32, bitsPerSample: U16, dataBytes: U32)

  /** Why main gives up on a file: too short to read, not a RIFF/WAVE file,
      or not plain PCM. */
  datatype WavError = Unreadable | Invalid | Unsupported

  datatype WavResult = Failed(error: WavError) | Loaded(format: WavFormat, data: seq<Byte>)

  const Riff: seq<Byte> := [0x52, 0x49, 0x46, 0x46]
  const Wave: seq<Byte> := [0x57, 0x41, 0x56, 0x45]
  const Fmt: seq<Byte> := [0x66, 0x6d, 0x74, 0x20]
  const DataTag: seq<Byte> := [0x64, 0x61, 0x74, 0x61]
  const HeaderBytes: nat := 44

  /** main's reading of the file: the header checks in the order main makes
      them, then the data chunk the header announces. */
  function ParseWav(file: seq<Byte>): (r: WavResult)
    ensures |file| < HeaderBytes ==> r == Failed(Unreadable)
    ensures r.Loaded? ==> (|file| >= HeaderBytes + r.format.dataBytes
      && file[0..4] == Riff && file[8..12] == Wave && file[12..16] == Fmt && file[36..40] == DataTag
      && DecodeLe32(file, 16) == 16 && DecodeLe16(file, 20) == 1
      && r.data == file[HeaderBytes..HeaderBytes + r.format.dataBytes])
    ensures |file| >= HeaderBytes && (file[0..4] != Riff || file[8..12] != Wave) ==> r == Failed(Invalid)
  {
    if |file| < HeaderBytes then Failed(Unreadable)
    else if file[0..4] != Riff || file[8..12] != Wave || file[12..16] != Fmt then Failed(Invalid)
    else if DecodeLe32(file, 16) != 16 || DecodeLe16(file, 20) != 1 then Failed(Unsupported)
    else if file[36..40] != DataTag then Failed(Invalid)
    else
      var size := DecodeLe32(file, 40);
      if |file| < HeaderBytes + size then Failed(Unreadable)
      else Loaded(WavFormat(DecodeLe16(file, 22), DecodeLe32(file, 24), DecodeLe32(file, 28), DecodeLe16(file, 34), size),
                  file[HeaderBytes..HeaderBytes + size])
  }

  /** A canonical PCM WAV file: the header main expects, then the data. */
  function EncodeWav(f: WavFormat, riffSize: U32, blockAlign: U16, data: seq<Byte>): (file: seq<Byte>)
    ensures |file| == HeaderBytes + |data|
  {
    Riff + EncodeLe32(riffSize) + Wave + Fmt + FmtBody(f, blockAlign) + DataTag + EncodeLe32(f.dataBytes) + data
  }

  /** The 20 bytes of the "fmt " chunk after its tag. */
  function FmtBody(f: WavFormat, blockAlign: U16): (b: seq<Byte>)
    ensures |b| == 20
  {
    EncodeLe32(16) + EncodeLe16(1) + EncodeLe16(f.channels) + EncodeLe32(f.sampleRate)
    + EncodeLe32(f.byteRate) + EncodeLe16(blockAlign) + EncodeLe16(f.bitsPerSample)
  }

  lemma DecodeLe16At(s: seq<Byte>, at: nat, x: U16)
    requires at + 2 <= |s| && s[at..at + 2] == EncodeLe16(x)
    ensures DecodeLe16(s, at) == x
  {
    assert s[at] == s[at..at + 2][0] && s[at + 1] == s[at..at + 2][1];
  }

  lemma DecodeLe32At(s: seq<Byte>, at: nat, x: U32)
    requires at + 4 <= |s| && s[at..at + 4] == EncodeLe32(x)
    ensures DecodeLe32(s, at) == x
  {
    assert s[at..at + 2] == s[at..at + 4][..2] == EncodeLe16(x % 0x1_0000);
    assert s[at + 2..at + 4] == s[at..at + 4][2..] == EncodeLe16(x / 0x1_0000);
    DecodeLe16At(s, at, x % 0x1_0000);
    DecodeLe16At(s, at + 2, x / 0x1_0000);
  }

  /** Every canonical file whose data chunk is as long as its header says is
      read back as its format and data. */
  lemma {:induction false} ParseEncoded(f: WavFormat, riffSize: U32, blockAlign: U16, data: seq<Byte>)
    requires |data| == f.dataBytes
    ensures ParseWav(EncodeWav(f, riffSize, blockAlign, data)) == Loaded(f, data)
  {
    var s := EncodeWav(f, riffSize, blockAlign, data);
    var body := FmtBody(f, blockAlign);
    assert s[0..4] == Riff && s[8..12] == Wave && s[12..16] == Fmt && s[36..40] == DataTag;
    assert s[16..36] == body;
    assert body[0..4] == EncodeLe32(16) && body[4..6] == EncodeLe16(1) && body[6..8] == EncodeLe16(f.channels);
    assert body[8..12] == EncodeLe32(f.sampleRate) && body[12..16] == EncodeLe32(f.byteRate);
    assert body[18..20] == EncodeLe16(f.bitsPerSample);
    assert s[40..44] == EncodeLe32(f.dataBytes);
    DecodeLe32At(s, 16, 16);
    DecodeLe16At(s, 20, 1);
    DecodeLe16At(s, 22, f.channels);
    DecodeLe32At(s, 24, f.sampleRate);
    DecodeLe32At(s, 28, f.byteRate);
    DecodeLe16At(s, 34, f.bitsPerSample);
    DecodeLe32At(s, 40, f.dataBytes);
    assert s[HeaderBytes..] == data;
  }

  // ---------------------------------------------------------------------
  // Sample order

  /** The bytes in reverse order. */
  function Reverse(s: seq<Byte>): (r: seq<Byte>)
    ensures |r| == |s|
  {
    seq(|s|, i requires 0 <= i < |s| => s[|s| - 1 - i])
  }

  /** Reversing twice restores the bytes. */
  lemma ReverseReverse(s: seq<Byte>)
    ensures Reverse(Reverse(s)) == s
  {
  }

  /** The data with the byte order of each whole sample reversed; a
      trailing part sample is left as it is. */
  function Swapped(s: seq<Byte>, width: nat): (r: seq<Byte>)
    requires width > 0
    ensures |r| == |s|
    decreases |s|
  {
    if |s| < width then s else Reverse(s[..width]) + Swapped(s[width..], width)
  }

  /** Converting twice restores the data. */
  lemma {:induction false} SwappedInvolution(s: seq<Byte>, width: nat)
    requires width > 0
    ensures Swapped(Swapped(s, width), width) == s
    decreases |s|
  {
    if |s| >= width {
      var head, tail := Reverse(s[..width]), Swapped(s[width..], width);
      assert (head + tail)[..width] == head && (head + tail)[width..] == tail;
      ReverseReverse(s[..width]);
      SwappedInvolution(s[width..], width);
      assert s == s[..width] + s[width..];
    }
  }

  /** k samples of w bytes. */
  function Times(k: nat, w: nat): nat
  {
    if k == 0 then 0 else Times(k - 1, w) + w
  }

  lemma {:induction false} TimesIsProduct(k: nat, w: nat)
    ensures Times(k, w) == k * w
  {
    if k > 0 {
      TimesIsProduct(k - 1, w);
    }
  }

  /** The bytes with the w bytes from p on reversed in place. */
  function Spliced(s: seq<Byte>, p: nat, w: nat): (r: seq<Byte>)
    requires p + w <= |s|
    ensures |r| == |s|
  {
    s[..p] + Reverse(s[p..p + w]) + s[p + w..]
  }

  /** The data with its first k samples converted, as the swap loop leaves
      it after k passes. */
  function SwapFirst(s: seq<Byte>, k: nat, w: nat): (r: seq<Byte>)
    requires Times(k, w) <= |s|
    ensures |r| == |s|
  {
    if k == 0 then s else Spliced(SwapFirst(s, k - 1, w), Times(k - 1, w), w)
  }

  /** Converting whole samples one after another converts the prefix they
      fill. */
  lemma {:induction false} SwappedSnoc(a: seq<Byte>, c: seq<Byte>, j: nat, w: nat)
    requires w > 0 && |a| == Times(j, w) && |c| == w
    ensures Swapped(a + c, w) == Swapped(a, w) + Reverse(c)
  {
    if j == 0 {
      assert a + c == c && c[..w] == c && c[w..] == [];
    } else {
      assert (a + c)[..w] == a[..w] && (a + c)[w..] == a[w..] + c;
      SwappedSnoc(a[w..], c, j - 1, w);
    }
  }

  /** A trailing part sample is left as it is. */
  lemma {:induction false} SwappedTail(a: seq<Byte>, t: seq<Byte>, j: nat, w: nat)
    requires w > 0 && |a| == Times(j, w) && |t| < w
    ensures Swapped(a + t, w) == Swapped(a, w) + t
  {
    if j == 0 {
      assert a + t == t;
    } else {
      assert (a + t)[..w] == a[..w] && (a + t)[w..] == a[w..] + t;
      SwappedTail(a[w..], t, j - 1, w);
    }
  }

  /** After k passes the converted part is the first k samples. */
  lemma {:induction false} SwapFirstPrefix(s: seq<Byte>, k: nat, w: nat)
    requires w > 0 && Times(k, w) <= |s|
    ensures SwapFirst(s, k, w) == Swapped(s[..Times(k, w)], w) + s[Times(k, w)..]
  {
    if k == 0 {
      assert s[..0] == [] && s[0..] == s;
    } else {
      SwapFirstPrefix(s, k - 1, w);
      SwapFirstStep(s, k, w);
    }
  }

  /** One more pass converts one more sample of the prefix. */
  lemma SwapFirstStep(s: seq<Byte>, k: nat, w: nat)
    requires w > 0 && k > 0 && Times(k, w) <= |s|
    requires SwapFirst(s, k - 1, w) == Swapped(s[..Times(k - 1, w)], w) + s[Times(k - 1, w)..]
    ensures SwapFirst(s, k, w) == Swapped(s[..Times(k, w)], w) + s[Times(k, w)..]
  {
    var p := Times(k - 1, w);
    assert Times(k, w) == p + w;
    var y, t := Swapped(s[..p], w), s[p..];
    assert SwapFirst(s, k, w) == y + Reverse(t[..w]) + t[w..] by {
      assert SwapFirst(s, k, w) == Spliced(y + t, p, w);
      SplicedAfter(y, t, w);
    }
    assert Swapped(s[..p + w], w) == y + Reverse(t[..w]) by {
      SwappedSnoc(s[..p], t[..w], k - 1, w);
      assert s[..p] + t[..w] == s[..p + w];
    }
    assert t[w..] == s[p + w..];
    assert s[..Times(k, w)] == s[..p + w] && s[Times(k, w)..] == s[p + w..];
  }

  /** Splicing just past a prefix leaves the prefix alone. */
  lemma SplicedAfter(y: seq<Byte>, t: seq<Byte>, w: nat)
    requires w <= |t|
    ensures Spliced(y + t, |y|, w) == y + Reverse(t[..w]) + t[w..]
  {
    var x := y + t;
    assert x[..|y|] == y && x[|y|..|y| + w] == t[..w] && x[|y| + w..] == t[w..];
  }

  /** Once every whole sample is done, the data is converted. */
  lemma SwapFirstAll(s: seq<Byte>, k: nat, w: nat)
    requires w > 0 && Times(k, w) <= |s| < Times(k, w) + w
    ensures SwapFirst(s, k, w) == Swapped(s, w)
  {
    SwapFirstPrefix(s, k, w);
    SwappedTail(s[..Times(k, w)], s[Times(k, w)..], k, w);
    assert s[..Times(k, w)] + s[Times(k, w)..] == s;
  }

  /** The bookkeeping of one pass: the next sample ends within the whole
      samples counted. */
  lemma {:induction false} TimesStep(done: nat, total: nat, w: nat)
    requires done < total
    ensures Times(done + 1, w) == Times(done, w) + w <= Times(total, w)
    decreases total
  {
    if done + 1 < total {
      TimesStep(done, total - 1, w);
    }
  }

  /** main's conversion of the samples to network byte order, in place, one
      sample at a time through a four-byte buffer. */
  method SwapSamples(data: array<Byte>, bytesPerSample: nat)
    requires 0 < bytesPerSample <= 4
    modifies data
    ensures data[..] == Swapped(old(data[..]), bytesPerSample)
  {
    var scount := WholeSampleCount(data.Length, bytesPerSample);
    SwapEach(data, bytesPerSample, scount);
    SwapFirstAll(old(data[..]), scount, bytesPerSample);
  }

  /** The loop of SwapSamples over scount whole samples. */
  method SwapEach(data: array<Byte>, bytesPerSample: nat, scount: nat)
    requires 0 < bytesPerSample <= 4 && Times(scount, bytesPerSample) <= data.Length
    modifies data
    ensures data[..] == SwapFirst(old(data[..]), scount, bytesPerSample)
  {
    ghost var o := data[..];
    var sample := new Byte[4];
    ghost var total := scount;
    var scount := scount;
    var pindex := 0;
    ghost var done := 0;
    while scount > 0
      invariant done + scount == total && pindex == Times(done, bytesPerSample) <= Times(total, bytesPerSample)
      invariant data[..] == SwapFirst(o, done, bytesPerSample)
    {
      TimesStep(done, total, bytesPerSample);
      SwapNext(data, sample, pindex, bytesPerSample, o, done);
      pindex := pindex + bytesPerSample;
      scount := scount - 1;
      done := done + 1;
    }
  }

  /** The whole samples in n bytes of w-byte samples, n / w in the source. */
  method WholeSampleCount(n: nat, w: nat) returns (count: nat)
    requires w > 0
    ensures Times(count, w) <= n < Times(count, w) + w
  {
    count := n / w;
    TimesIsProduct(count, w);
    DivisionUnique(n, w, count, n % w);
  }

  /** One pass of the loop: the next sample is swapped. */
  method SwapNext(data: array<Byte>, sample: array<Byte>, start: nat, width: nat, ghost o: seq<Byte>, ghost k: nat)
    requires data != sample && 0 < width <= sample.Length
    requires start == Times(k, width) && start + width <= data.Length == |o|
    requires data[..] == SwapFirst(o, k, width)
    modifies data, sample
    ensures data[..] == SwapFirst(o, k + 1, width)
  {
    SwapOne(data, sample, start, width);
  }

  /** One sample: its bytes are copied out, then written back in reverse
      order; nothing else in the data changes. */
  method SwapOne(data: array<Byte>, sample: array<Byte>, start: nat, width: nat)
    requires data != sample && width <= sample.Length && start + width <= data.Length
    modifies data, sample
    ensures data[..] == Spliced(old(data[..]), start, width)
  {
    CopyOut(data, sample, start, width);
    WriteBack(data, sample, start, width);
    assert data[..] == data[..start] + data[start..start + width] + data[start + width..];
  }

  /** The first loop of one sample: its bytes go to the buffer. */
  method CopyOut(data: array<Byte>, sample: array<Byte>, start: nat, width: nat)
    requires data != sample && width <= sample.Length && start + width <= data.Length
    modifies sample
    ensures sample[..width] == data[start..start + width]
  {
    var pindex := start;
    var bcount, sindex := width, 0;
    while bcount > 0
      invariant sindex + bcount == width && pindex == start + sindex
      invariant sample[..sindex] == data[start..pindex]
    {
      sample[sindex] := data[pindex];
      sindex, pindex, bcount := sindex + 1, pindex + 1, bcount - 1;
    }
  }

  /** The second loop: the buffer goes back, last byte first. */
  method WriteBack(data: array<Byte>, sample: array<Byte>, start: nat, width: nat)
    requires data != sample && width <= sample.Length && start + width <= data.Length
    modifies data
    ensures data[start..start + width] == Reverse(sample[..width])
    ensures data[..start] == old(data[..start]) && data[start + width..] == old(data[start + width..])
  {
    var pindex := start + width;
    var bcount, sindex := width, 0;
    while bcount > 0
      invariant sindex + bcount == width && pindex == start + width - sindex
      invariant forall j :: 0 <= j < sindex ==> data[start + width - 1 - j] == sample[j]
      invariant data[..pindex] == old(data[..pindex])
      invariant data[start + width..] == old(data[start + width..])
    {
      pindex := pindex - 1;
      data[pindex] := sample[sindex];
      sindex, bcount := sindex + 1, bcount - 1;
    }
  }
}
