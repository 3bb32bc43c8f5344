// The audio engine of the ohSoundcard Mac kernel driver (AudioEngine.cpp).
// CoreAudio mixes into a ring of 16 blocks of 220 stereo 24-bit frames; a
// timer fires once per block, copies the current block into the one audio
// message, stamps it and hands it to the socket. The timer is rescheduled
// against the start of the session, not against the previous firing, so
// lateness does not accumulate.
//
// Clock readings (clock_get_uptime) and the mixed audio are parameters;
// the timer itself is the list of timeouts it was given.
module SoundcardEngine {
  import opened Octets
  import opened OhmWire
  import MacSongcast
  import opened SoundcardSongcast

  const Blocks: U32 := 16
  const BlockFrames: U32 := 220
  const Channels: U32 := 2
  const BitDepth: U32 := 24
  const SampleRate: U32 := 44100

  /** init's timer interval: 220 frames at 44100 Hz in whole nanoseconds,
      computed in 64 bits and kept in a 32-bit field. */
  function Interval(): (ns: U32)
    ensures ns * SampleRate <= 1_000_000_000 * BlockFrames < (ns + 1) * SampleRate
  {
    (1_000_000_000 * BlockFrames) / SampleRate
  }

  lemma IntervalValue()
    ensures Interval() == 4988662
  {
  }

  // ---------------------------------------------------------------------
  // BlockBuffer

  /** The sizes of a BlockBuffer; the memory itself is the mix. */
  datatype BlockBuffer = BlockBuffer(bytes: U32, blockBytes: U32, blocks: U32, blockFrames: U32)

  /** The constructor's sizes, each product computed in 32 bits. */
  function NewBlockBuffer(blocks: U32, blockFrames: U32, channels: U32, bitDepth: U32): BlockBuffer
  {
    BlockBuffer(Trunc32(blocks * blockFrames * channels * bitDepth) / 8,
      Trunc32(blockFrames * channels * bitDepth) / 8, blocks, blockFrames)
  }

  /** Without wrap-around the blocks fit in the buffer, and fill it exactly
      when a block is a whole number of bytes. */
  lemma {:induction false} BlocksFit(blocks: U32, blockFrames: U32, channels: U32, bitDepth: U32)
    requires blocks * blockFrames * channels * bitDepth < 0x1_0000_0000
    ensures var b := NewBlockBuffer(blocks, blockFrames, channels, bitDepth);
      && b.blocks * b.blockBytes <= b.bytes
      && ((blockFrames * channels * bitDepth) % 8 == 0 ==> b.bytes == b.blocks * b.blockBytes)
  {
    var fc: nat := blockFrames * channels;
    var p: nat := fc * bitDepth;
    assert blocks * blockFrames * channels * bitDepth == blocks * p;
    var b := NewBlockBuffer(blocks, blockFrames, channels, bitDepth);
    if blocks > 0 {
      MulAtLeast(blocks, p);
      assert b.bytes == (blocks * p) / 8 && b.blockBytes == p / 8;
      EighthOfMultiple(blocks, p);
    }
  }

  /** A multiple of a whole number of eighths is at most the eighth of the
      multiple, and equal to it when nothing was rounded off. */
  lemma EighthOfMultiple(k: nat, p: nat)
    ensures k * (p / 8) <= (k * p) / 8
    ensures p % 8 == 0 ==> k * (p / 8) == (k * p) / 8
  {
    var q, r := p / 8, p % 8;
    assert k * p == 8 * (k * q) + k * r;
    var x, y := k * q, (k * p) / 8;
    assert k * p == 8 * y + (k * p) % 8;
    assert 8 * x <= 8 * y + 7;
    if r == 0 {
      DivisionUnique(k * p, 8, x, 0);
    }
  }

  /** The engine's buffer: 16 blocks of 1320 bytes. */
  lemma EngineBufferSizes()
    ensures NewBlockBuffer(Blocks, BlockFrames, Channels, BitDepth) == BlockBuffer(21120, 1320, 16, 220)
  {
  }

  /** The bytes of block i of the mix, as BlockPtr(i) and BlockBytes() give them. */
  function Block(mix: seq<Byte>, b: BlockBuffer, i: U32): (r: seq<Byte>)
    requires b == NewBlockBuffer(Blocks, BlockFrames, Channels, BitDepth)
    requires i < b.blocks && |mix| == b.bytes
    ensures |r| == b.blockBytes
  {
    EngineBufferSizes();
    mix[i * b.blockBytes .. (i + 1) * b.blockBytes]
  }

  // ---------------------------------------------------------------------
  // Counters

  /** The three counters TimerFired advances. */
  datatype Clock = Clock(block: U32, frame: U32, fired: U32)

  /** One firing: the block index wraps at Blocks, the frame and fired
      counters are 32-bit and wrap at 2^32. */
  function Tick(c: Clock): (r: Clock)
  {
    Clock(if c.block + 1 >= Blocks then 0 else Trunc32(c.block + 1), Inc32(c.frame), Inc32(c.fired))
  }

  /** The counters after n firings since performAudioEngineStart. */
  function Ticks(n: nat): Clock
  {
    if n == 0 then Clock(0, 0, 0) else Tick(Ticks(n - 1))
  }

  /** After n firings the engine is at block n mod 16 and both the frame
      number and the fired count are n mod 2^32. */
  lemma {:induction false} TicksCount(n: nat)
    ensures Ticks(n) == Clock(n % Blocks, n % 0x1_0000_0000, n % 0x1_0000_0000)
  {
    if n > 0 {
      TicksCount(n - 1);
      ModStep(n - 1, Blocks);
      ModStep(n - 1, 0x1_0000_0000);
    }
  }

  /** Counting up by one modulo k. */
  lemma ModStep(m: nat, k: nat)
    requires k > 0
    ensures (m + 1) % k == if m % k == k - 1 then 0 else m % k + 1
  {
    var q := m / k;
    assert m == q * k + m % k;
    if m % k == k - 1 {
      DivisionUnique(m + 1, k, q + 1, 0);
    } else {
      DivisionUnique(m + 1, k, q, m % k + 1);
    }
  }

  // ---------------------------------------------------------------------
  // Timer schedule

  /** TimerFired's timeout after the fired count has become fired: the
      deadline timeZero + interval·(fired + 1), the product in 32 bits and
      the sum in 64, less the current time in 64 bits, cut to 32 bits. */
  function NextTimeout(timeZero: U64, interval: U32, fired: U32, now: U64): U32
  {
    Trunc32(Trunc64(Trunc64(timeZero + Trunc32(interval * Trunc32(fired + 1))) - now))
  }

  /** Adding a multiple of m keeps the value modulo m. */
  lemma ModAddMultiple(y: int, m: nat, q: int)
    requires m > 0
    ensures (y + m * q) % m == y % m
  {
    assert y == (y / m) * m + y % m;
    assert y + m * q == (y / m + q) * m + y % m;
    DivisionUnique(y + m * q, m, y / m + q, y % m);
  }

  /** Reducing modulo a multiple of m keeps the value modulo m. */
  lemma ModOfMultiple(x: int, m: nat, k: nat)
    requires m > 0 && k > 0
    ensures (x % (m * k)) % m == x % m
  {
    var q := x / (m * k);
    assert x == (m * k) * q + x % (m * k);
    assert x % (m * k) == x + m * -(k * q);
    ModAddMultiple(x, m, -(k * q));
  }

  /** Every wrap-around in the computation is modulo a multiple of 2^32,
      so the timeout is the exact distance to the deadline modulo 2^32:
      none of the intermediate wrap-arounds moves it. */
  lemma {:induction false} NoDrift(timeZero: U64, interval: U32, fired: U32, now: U64)
    ensures NextTimeout(timeZero, interval, fired, now)
      == (timeZero + interval * (fired + 1) - now) % 0x1_0000_0000
  {
    var M := 0x1_0000_0000;
    var a := Trunc32(fired + 1);
    ModOfMultiple(fired + 1, M, 1);
    MulCong(interval, a, fired + 1, M);
    var p := Trunc32(interval * a);
    ModOfMultiple(interval * a, M, 1);
    AddCong(timeZero, p, interval * (fired + 1), M);
    var s := Trunc64(timeZero + p);
    ModOfMultiple(timeZero + p, M, M);
    AddCong(-(now as int), s, timeZero + interval * (fired + 1), M);
    var d := Trunc64(s - now);
    ModOfMultiple(s - now, M, M);
  }

  /** Sums agree modulo m when the addends do. */
  lemma AddCong(a: int, b: int, c: int, m: nat)
    requires m > 0 && b % m == c % m
    ensures (a + b) % m == (a + c) % m
  {
    assert b == m * (b / m) + b % m && c == m * (c / m) + c % m;
    assert a + b == (a + c) + m * (b / m - c / m);
    ModAddMultiple(a + c, m, b / m - c / m);
  }

  /** Products agree modulo m when the factors do. */
  lemma MulCong(a: int, b: int, c: int, m: nat)
    requires m > 0 && b % m == c % m
    ensures (a * b) % m == (a * c) % m
  {
    var k := b / m - c / m;
    assert b == m * (b / m) + b % m && c == m * (c / m) + c % m;
    assert b == c + m * k;
    assert a * b == a * c + m * (a * k);
    ModAddMultiple(a * c, m, a * k);
  }

  /** When the deadline lies ahead of now by less than 2^32 ns, the timer
      is set to exactly the time left until it: every deadline is
      timeZero + interval·k however late the previous firings were. */
  lemma ExactTimeout(timeZero: U64, interval: U32, fired: U32, now: U64)
    requires now <= timeZero + interval * (fired + 1) < now + 0x1_0000_0000
    ensures NextTimeout(timeZero, interval, fired, now) == timeZero + interval * (fired + 1) - now
  {
    NoDrift(timeZero, interval, fired, now);
  }

  // ---------------------------------------------------------------------
  // The packet

  /** The header TimerFired writes before the socket sees the message. */
  function PacketHeader(h: AudioHeader, stopping: bool, rate: U32, frame: U32, timestamp: U32): AudioHeader
  {
    h.(flags := MacSongcast.HeaderFlags(stopping), sampleRate := rate,
      bitRate := Trunc32(rate * h.channels as int * h.bitDepth as int),
      frame := frame, networkTimestamp := timestamp, mediaTimestamp := timestamp)
  }

  /** The packet halts exactly when the engine is stopping, carries the
      frame counter and the sample rate, and both its timestamps are the
      media clock reading of the time the previous packet was sent. */
  lemma {:induction false} PacketHeaderMeaning(h: AudioHeader, stopping: bool, frame: U32, ns: U64)
    requires ns * SampleRate * 256 < 0x1_0000_0000_0000_0000
    ensures var p := PacketHeader(h, stopping, SampleRate, frame, MacSongcast.Timestamp(ns, SampleRate));
      && HasFlag(p.flags, FlagHalt) == stopping && !HasFlag(p.flags, FlagResent)
      && p.frame == frame && p.sampleRate == SampleRate
      && p.networkTimestamp == p.mediaTimestamp == (ns * SampleRate * 256 / 1_000_000_000) % 0x1_0000_0000
      && p.codecName == h.codecName && p.samples == h.samples
  {
    HaltFlagMeaning(stopping);
    MacSongcast.TimestampIsMediaClock(ns, SampleRate);
  }

  // ---------------------------------------------------------------------
  // AudioEngine

  class AudioEngine {
    var currentBlock: U32
    var currentFrame: U32
    var sampleRate: U32
    var timerIntervalNs: U32
    /** The time, in ns, at which the previous packet was sent. */
    var timestamp: U64
    var timeZero: U64
    var timerFiredCount: U32
    var audioStopping: bool
    var buffer: BlockBuffer
    var msg: AudioMessage
    var socket: SongcastSocket
    /** The timeouts handed to the timer, oldest first. */
    var timeouts: seq<U32>
    /** The takeTimeStamp calls made as the block ring wraps. */
    var wraps: nat

    ghost predicate Valid()
      reads this, msg
    {
      && msg.Valid() && buffer == NewBlockBuffer(Blocks, BlockFrames, Channels, BitDepth)
      && msg.audioBytes == buffer.blockBytes && currentBlock < buffer.blocks
      && sampleRate == SampleRate && timerIntervalNs == Interval()
    }

    /** A successful init, with the socket SetSocket later gives it; the
        message is one block long. */
    constructor (s: SongcastSocket, memory: AudioHeader, memoryAudio: seq<Byte>)
      requires |memoryAudio| == AudioBytesFor(BlockFrames, Channels, BitDepth)
      ensures Valid() && socket == s && fresh(msg)
      ensures currentBlock == 0 && currentFrame == 0 && timestamp == 0 && timeZero == 0
      ensures timerFiredCount == 0 && !audioStopping && timeouts == [] && wraps == 0
      ensures msg.header == ConstructedHeader(memory, BlockFrames, Channels, BitDepth)
    {
      currentBlock := 0;
      currentFrame := 0;
      sampleRate := SampleRate;
      timeZero := 0;
      timerFiredCount := 0;
      audioStopping := false;
      timerIntervalNs := Interval();
      timestamp := 0;
      buffer := NewBlockBuffer(Blocks, BlockFrames, Channels, BitDepth);
      msg := new AudioMessage(BlockFrames, Channels, BitDepth, memory, memoryAudio);
      socket := s;
      timeouts := [];
      wraps := 0;
    }

    /** init: the base class's init and the two allocations can fail, and
        then there is no engine. */
    static method Init(baseOk: bool, allocOk: bool, s: SongcastSocket, memory: AudioHeader, memoryAudio: seq<Byte>)
      returns (engine: AudioEngine?)
      requires |memoryAudio| == AudioBytesFor(BlockFrames, Channels, BitDepth)
      ensures engine != null <==> baseOk && allocOk
      ensures engine != null ==> fresh(engine) && engine.Valid() && engine.socket == s && engine.timeouts == []
    {
      if !baseOk || !allocOk {
        return null;
      }
      engine := new AudioEngine(s, memory, memoryAudio);
    }

    method SetSocket(s: SongcastSocket)
      modifies this`socket
      ensures socket == s
    {
      socket := s;
    }

    /** Starts a session at now: counters reset, the session's time origin
        is now, and the first timeout is one interval. timerOk is whether
        the timer accepted it. */
    method Start(now: U64, timerOk: bool) returns (ok: bool)
      requires Valid()
      modifies this`currentBlock, this`currentFrame, this`timestamp, this`timeZero
      modifies this`timerFiredCount, this`audioStopping, this`timeouts
      ensures Valid() && ok == timerOk
      ensures Clock(currentBlock, currentFrame, timerFiredCount) == Ticks(0)
      ensures timestamp == now && timeZero == now && !audioStopping
      ensures timeouts == old(timeouts) + [timerIntervalNs]
    {
      currentBlock := 0;
      currentFrame := 0;
      timestamp := now;
      timeZero := timestamp;
      timerFiredCount := 0;
      audioStopping := false;
      timeouts := timeouts + [timerIntervalNs];
      ok := timerOk;
    }

    /** performAudioEngineStop only raises the flag; the next firing sends
        the halting packet and no further timeout is set. */
    method Stop()
      modifies this`audioStopping
      ensures audioStopping
    {
      audioStopping := true;
    }

    /** getCurrentSampleFrame: the first frame of the current block, which
        is inside the ring. */
    function CurrentSampleFrame(): (r: U32)
      reads this, msg
      requires Valid()
      ensures r == currentBlock * BlockFrames && r + BlockFrames <= Blocks * BlockFrames
    {
      Trunc32(currentBlock * buffer.blockFrames)
    }

    /** The first step of TimerFired: count the firing and, unless
        stopping, set the timer for the next deadline. */
    method Schedule(now: U64)
      modifies this`timerFiredCount, this`timeouts
      ensures timerFiredCount == Inc32(old(timerFiredCount))
      ensures timeouts == old(timeouts)
        + (if audioStopping then [] else [NextTimeout(timeZero, timerIntervalNs, timerFiredCount, now)])
    {
      timerFiredCount := Inc32(timerFiredCount);
      if !audioStopping {
        var timeOfNextFire := Trunc64(timeZero + Trunc32(timerIntervalNs * Trunc32(timerFiredCount + 1)));
        timeouts := timeouts + [Trunc32(Trunc64(timeOfNextFire - now))];
      }
    }

    /** The message of one firing, before the socket sees it. */
    method Compose(block: seq<Byte>)
      requires Valid() && |block| == msg.audioBytes
      modifies msg
      ensures Valid()
      ensures msg.header == PacketHeader(old(msg.header), audioStopping, sampleRate, currentFrame,
        MacSongcast.Timestamp(timestamp, sampleRate))
      ensures msg.audio == block
    {
      var ts := MacSongcast.Timestamp(timestamp, sampleRate);
      msg.SetHaltFlag(audioStopping);
      msg.SetSampleRate(sampleRate);
      msg.SetFrame(currentFrame);
      msg.SetTimestamp(ts);
      msg.SetData(block);
    }

    /** The counters after a firing; a wrap of the block ring is reported
        with takeTimeStamp. */
    method Advance()
      requires Valid()
      modifies this`currentBlock, this`currentFrame, this`wraps
      ensures Valid()
      ensures Clock(currentBlock, currentFrame, timerFiredCount) == Tick(old(Clock(currentBlock, currentFrame, timerFiredCount))).(fired := timerFiredCount)
      ensures wraps == old(wraps) + (if currentBlock == 0 then 1 else 0)
    {
      currentBlock := currentBlock + 1;
      currentFrame := Inc32(currentFrame);
      if currentBlock >= buffer.blocks {
        currentBlock := 0;
        wraps := wraps + 1;
      }
    }

    /** One timer firing at time now, with later the time read after the
        counters advance. The current block of the mix goes out (unless
        the socket holds it back) stamped with the previous firing's time,
        and the counters tick. */
    method TimerFired(now: U64, later: U64, mix: seq<Byte>)
      requires Valid() && |mix| == buffer.bytes
      modifies this, msg, socket
      ensures Valid() && msg == old(msg) && socket == old(socket)
      ensures Clock(currentBlock, currentFrame, timerFiredCount) == Tick(old(Clock(currentBlock, currentFrame, timerFiredCount)))
      ensures timeouts == old(timeouts)
        + (if audioStopping then [] else [NextTimeout(timeZero, timerIntervalNs, timerFiredCount, now)])
      ensures timestamp == later && wraps == old(wraps) + (if currentBlock == 0 then 1 else 0)
      ensures msg.audio == Block(mix, buffer, old(currentBlock))
      ensures var h := PacketHeader(old(msg.header), audioStopping, SampleRate, old(currentFrame),
          MacSongcast.Timestamp(old(timestamp), SampleRate));
        var sends := old(socket.open) && old(socket.state) != Inactive;
        && msg.header == (if sends && old(socket.state) == PendingInactiveHalt then h.(flags := MacSongcast.HeaderFlags(true)) else h)
        && socket.sent == old(socket.sent) + (if sends then [msg.Image()] else [])
        && socket.state == (if sends then NextState(old(socket.state)) else old(socket.state))
      ensures audioStopping == old(audioStopping) && timeZero == old(timeZero)
      ensures buffer == old(buffer) && sampleRate == old(sampleRate) && timerIntervalNs == old(timerIntervalNs)
    {
      Prepare(now, later, mix);
      socket.Send(msg);
    }

    /** TimerFired up to the hand-over to the socket. */
    method Prepare(now: U64, later: U64, mix: seq<Byte>)
      requires Valid() && |mix| == buffer.bytes
      modifies this`timerFiredCount, this`timeouts, this`currentBlock, this`currentFrame
      modifies this`wraps, this`timestamp, msg
      ensures Valid()
      ensures Clock(currentBlock, currentFrame, timerFiredCount) == Tick(old(Clock(currentBlock, currentFrame, timerFiredCount)))
      ensures timeouts == old(timeouts)
        + (if audioStopping then [] else [NextTimeout(timeZero, timerIntervalNs, timerFiredCount, now)])
      ensures timestamp == later && wraps == old(wraps) + (if currentBlock == 0 then 1 else 0)
      ensures msg.audio == Block(mix, buffer, old(currentBlock))
      ensures msg.header == PacketHeader(old(msg.header), audioStopping, SampleRate, old(currentFrame),
        MacSongcast.Timestamp(old(timestamp), SampleRate))
    {
      Schedule(now);
      var block := Block(mix, buffer, currentBlock);
      Compose(block);
      Advance();
      timestamp := later;
    }
  }
}
