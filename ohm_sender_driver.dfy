// OhmSenderDriver (OhmSender.cpp): the user-space driver an Ohm sender
// feeds with audio. It numbers and sends one audio message per SendAudio
// while the send gate (enabled and active) is open, keeps a capped history
// of the messages it sent, marked resent, and sends history messages again
// when a receiver asks for their frames.
//
// Every method is one step taken under the driver's mutex. The socket is the
// list of datagrams handed to it; a send that fails is ignored by the
// source, so every send appears in the list. Releasing a message (RemoveRef
// back to the factory's pool) is recorded as the list of released messages.
module OhmSenderDriver {
  import opened Octets
  import opened OhmWire
  import opened Fifo
  import opened ResendRequest

  /** The Ohm major version written into every common header. */
  const MajorVersion: Byte := 1

  /** The latency the driver starts with, in milliseconds. */
  const DefaultLatencyMs: U32 := 100

  /** An audio message of the factory: its header fields and its audio. */
  datatype AudioMsg = AudioMsg(header: AudioHeader, audio: seq<Byte>)

  /** A message whose codec name fits the one-byte length field. */
  type Sendable = m: AudioMsg | |m.header.codecName| < 0x100
    witness AudioMsg(AudioHeader(0, 0, 0, 0, 0, 0, 0, 0, 0, 0, 0, 0, 0, []), [])

  /** A datagram handed to the socket, with its destination. */
  datatype Datagram = Datagram(to: Endpoint, bytes: seq<Byte>)

  /** The flags byte of a created message: halt and lossless as given,
      neither timestamped nor resent. */
  function Flags(halt: bool, lossless: bool): (f: Byte)
    ensures HasFlag(f, FlagHalt) == halt && HasFlag(f, FlagLossless) == lossless
    ensures !HasFlag(f, FlagTimestamped) && !HasFlag(f, FlagResent)
  {
    (if halt then 1 else 0) + (if lossless then 2 else 0)
  }

  /** OhmMsgAudio::SetResent(true): the resent bit set, the rest kept. */
  function AsResent(m: Sendable): (r: Sendable)
    ensures HasFlag(r.header.flags, FlagResent)
    ensures HasFlag(r.header.flags, FlagHalt) == HasFlag(m.header.flags, FlagHalt)
    ensures r.header == m.header.(flags := r.header.flags) && r.audio == m.audio
  {
    m.(header := m.header.(flags := WithResentFlag(m.header.flags)))
  }

  /** Externalise: the common header, the audio header and the audio. */
  function Image(m: Sendable): (s: seq<Byte>)
    ensures |s| == HeaderBytes + AudioHeaderBytes + |m.header.codecName| + |m.audio|
  {
    var body := EncodeAudioHeader(m.header) + m.audio;
    EncodeHeader(Header(MajorVersion, MsgAudio, Trunc16(HeaderBytes + |body|))) + body
  }

  /** A receiver reads back the message from its image: an audio message of
      the image's length, the same header fields and the same audio. */
  lemma {:induction false} ImageRoundTrip(m: Sendable)
    ensures var s := Image(m);
      && DecodeHeader(s) == Some(Header(MajorVersion, MsgAudio, Trunc16(|s|)))
      && DecodeAudioHeader(s[HeaderBytes..]) == Some(m.header)
      && s[HeaderBytes + AudioHeaderBytes + |m.header.codecName|..] == m.audio
  {
    var body := EncodeAudioHeader(m.header) + m.audio;
    var h := Header(MajorVersion, MsgAudio, Trunc16(HeaderBytes + |body|));
    var s := Image(m);
    assert s == EncodeHeader(h) + body;
    HeaderRoundTrip(h, body);
    assert s[HeaderBytes..] == body;
    AudioHeaderRoundTrip(m.header, m.audio);
  }

  /** (a / b) / c == a / (b * c) for positive divisors. */
  lemma DivDiv(a: nat, b: nat, c: nat)
    requires b > 0 && c > 0
    ensures a / b / c == a / (b * c)
  {
    var q1, r1 := a / b, a % b;
    var q2, r2 := q1 / c, q1 % c;
    var bc := b * c;
    assert a == q1 * b + r1 && q1 == q2 * c + r2;
    assert q1 * b == q2 * bc + r2 * b by {
      assert (q2 * c + r2) * b == q2 * c * b + r2 * b;
    }
    var spare: nat := c - 1 - r2;
    var slack: nat := spare * b;
    assert slack == bc - b - r2 * b;
    DivisionUnique(a, bc, q2, r2 * b + r1);
  }

  /** SendAudio's sample count: the bit count, in 32 bits, divided by the
      channel count and then by the bit depth. */
  function SamplesOf(bytes: nat, channels: U32, bitDepth: U32): (n: U32)
    requires channels > 0 && bitDepth > 0
  {
    var bits := Trunc32(bytes * 8);
    DivBelow(bits, channels);
    DivBelow(bits / channels, bitDepth);
    bits / channels / bitDepth
  }

  lemma DivBelow(a: nat, d: nat)
    requires d > 0
    ensures a / d <= a
  {
    if a / d > a {
      MulAtLeast(d, a / d);
      assert false;
    }
  }

  /** Dividing by the channels and then the depth divides by the bits of
      one sample frame. */
  lemma {:induction false} SamplesPerFrameBits(bytes: nat, channels: U32, bitDepth: U32)
    requires channels > 0 && bitDepth > 0
    ensures SamplesOf(bytes, channels, bitDepth) == Trunc32(bytes * 8) / (channels * bitDepth)
  {
    DivDiv(Trunc32(bytes * 8), channels, bitDepth);
  }

  /** Below 2^29 bytes there is no wrap-around: the samples are the whole
      sample frames in the data. */
  lemma WholeSampleFrames(bytes: nat, channels: U32, bitDepth: U32)
    requires channels > 0 && bitDepth > 0 && bytes < 0x2000_0000
    ensures var n := SamplesOf(bytes, channels, bitDepth);
      n * (channels * bitDepth) <= bytes * 8 < (n + 1) * (channels * bitDepth)
  {
    var n := SamplesOf(bytes, channels, bitDepth);
    var d := channels * bitDepth;
    SamplesPerFrameBits(bytes, channels, bitDepth);
    assert Trunc32(bytes * 8) == bytes * 8;
    assert bytes * 8 == d * n + (bytes * 8) % d;
  }

  /** The media clock ticks per second, times 1000: 256 times the base rate
      of the rate's family, chosen by divisibility by 441. */
  function Multiplier(sampleRate: U32): nat
  {
    if sampleRate % 441 == 0 then 44100 * 256 else 48000 * 256
  }

  /** The latency field: milliseconds times the multiplier, in 32 bits,
      divided by 1000. */
  function LatencyField(ms: U32, sampleRate: U32): (r: U32)
    ensures ms * Multiplier(sampleRate) < 0x1_0000_0000 ==>
      1000 * r <= ms * Multiplier(sampleRate) < 1000 * r + 1000
  {
    Trunc32(ms * Multiplier(sampleRate)) / 1000
  }

  /** The default 100 ms at 44.1 kHz is 100 ms of a 256 * 44100 Hz clock,
      and at 48 kHz of a 256 * 48000 Hz clock. */
  lemma DefaultLatencyField()
    ensures LatencyField(DefaultLatencyMs, 44100) == 1128960
    ensures LatencyField(DefaultLatencyMs, 48000) == 1228800
  {
    assert 44100 % 441 == 0 && 48000 % 441 != 0;
  }

  /** The message SendAudio creates: not timestamped, volume offset 0,
      both timestamps 0, the latency field from the latency and rate, and
      the position, format and codec the driver holds. */
  function NewMessage(data: seq<Byte>, halt: bool, lossless: bool, samples: U32, frame: U32, latencyMs: U32,
                      sampleStart: U64, samplesTotal: U64, sampleRate: U32, bitRate: U32,
                      bitDepth: U32, channels: U32, codecName: seq<Byte>): Sendable
    requires |codecName| < 0x100
  {
    AudioMsg(AudioHeader(Flags(halt, lossless), Trunc16(samples), frame, 0, LatencyField(latencyMs, sampleRate), 0,
      sampleStart, samplesTotal, sampleRate, bitRate, 0, Trunc8(bitDepth), Trunc8(channels), codecName), data)
  }

  /** The datagrams of the picked history messages, in history order. */
  function Picked(to: Endpoint, h: seq<Sendable>, hits: seq<bool>): (r: seq<Datagram>)
    requires |hits| == |h|
    ensures |r| <= |h|
    decreases |h|
  {
    if |h| == 0 then []
    else Picked(to, h[..|h| - 1], hits[..|h| - 1]) + (if hits[|h| - 1] then [Datagram(to, Image(h[|h| - 1]))] else [])
  }

  /** Picking nothing sends nothing, and picking everything sends every
      message. */
  lemma {:induction false} PickedAllOrNone(to: Endpoint, h: seq<Sendable>, hits: seq<bool>)
    requires |hits| == |h|
    ensures (forall k :: 0 <= k < |h| ==> !hits[k]) ==> Picked(to, h, hits) == []
    ensures (forall k :: 0 <= k < |h| ==> hits[k]) ==> |Picked(to, h, hits)| == |h|
    decreases |h|
  {
    if |h| > 0 {
      PickedAllOrNone(to, h[..|h| - 1], hits[..|h| - 1]);
    }
  }

  /** The history after a send: the oldest entry gives way when full. */
  function Capped(h: seq<Sendable>, cap: nat): (r: seq<Sendable>)
    ensures |h| == cap > 0 ==> r == h[1..]
    ensures |h| != cap || cap == 0 ==> r == h
  {
    if |h| == cap && cap > 0 then h[1..] else h
  }

  /** The entry released to make room, if any. */
  function Evicted(h: seq<Sendable>, cap: nat): (r: seq<Sendable>)
    ensures |h| == cap > 0 ==> r == [h[0]]
    ensures |h| != cap || cap == 0 ==> r == []
  {
    if |h| == cap && cap > 0 then [h[0]] else []
  }

  /** Nothing is lost: the evicted entry and the capped history are the old
      history, and with the new message the history stays within its cap. */
  lemma CappedKeepsOrder(h: seq<Sendable>, cap: nat, m: Sendable)
    requires |h| <= cap && cap > 0
    ensures Evicted(h, cap) + Capped(h, cap) == h
    ensures |Capped(h, cap) + [m]| <= cap
    ensures (Capped(h, cap) + [m])[|Capped(h, cap)|] == m
  {
    if |h| == cap {
      assert [h[0]] + h[1..] == h;
    }
  }

  class SenderDriver {
    var enabled: bool
    var active: bool
    /** iSend: audio goes out only while set. */
    var send: bool
    var frame: U32
    var samplesTotal: U64
    var sampleStart: U64
    /** iLatency, in milliseconds. */
    var latency: U32
    var sampleRate: U32
    var bitRate: U32
    var channels: U32
    var bitDepth: U32
    var lossless: bool
    var codecName: seq<Byte>
    var endpoint: Endpoint
    var adapter: U32
    /** The time-to-live the socket was last given. */
    var ttl: U32
    /** kMaxHistoryFrames. */
    const maxHistory: nat
    const history: FifoLite<Sendable>
    /** The datagrams handed to the socket, oldest first. */
    var sent: seq<Datagram>
    /** The messages released back to the factory, oldest first. */
    var released: seq<Sendable>

    ghost predicate Valid()
      reads this, history, history.buf
    {
      history.Valid() && history.slots == maxHistory && maxHistory > 0
      && |codecName| < 0x100 && send == (enabled && active)
    }

    /** The format fields are left unset by the source until
        SetAudioFormat; they start at zero here. */
    constructor (maxHistoryFrames: nat)
      requires maxHistoryFrames > 0
      ensures Valid() && maxHistory == maxHistoryFrames && fresh(history) && fresh(history.buf)
      ensures !enabled && !active && !send && frame == 0
      ensures samplesTotal == 0 && sampleStart == 0 && latency == DefaultLatencyMs
      ensures history.contents == [] && sent == [] && released == []
    {
      enabled, active, send := false, false, false;
      frame := 0;
      samplesTotal, sampleStart := 0, 0;
      latency := DefaultLatencyMs;
      sampleRate, bitRate, channels, bitDepth := 0, 0, 0, 0;
      lossless := false;
      codecName := [];
      endpoint := Endpoint(0, 0);
      adapter, ttl := 0, 0;
      maxHistory := maxHistoryFrames;
      history := new FifoLite<Sendable>(maxHistoryFrames);
      sent, released := [], [];
    }

    /** The codec name must fit its buffer, whose capacity is below 256. */
    method SetAudioFormat(rate: U32, rateBits: U32, channelCount: U32, depth: U32, isLossless: bool, codec: seq<Byte>)
      requires Valid() && |codec| < 0x100
      modifies this`sampleRate, this`bitRate, this`channels, this`bitDepth, this`lossless, this`codecName
      ensures Valid()
      ensures sampleRate == rate && bitRate == rateBits && channels == channelCount
      ensures bitDepth == depth && lossless == isLossless && codecName == codec
    {
      sampleRate, bitRate, channels, bitDepth := rate, rateBits, channelCount, depth;
      lossless := isLossless;
      codecName := codec;
    }

    /** The message the next SendAudio of data creates. */
    function Next(data: seq<Byte>, halt: bool): Sendable
      reads this
      requires |codecName| < 0x100 && channels > 0 && bitDepth > 0
    {
      NewMessage(data, halt, lossless, SamplesOf(|data|, channels, bitDepth), frame, latency,
        sampleStart, samplesTotal, sampleRate, bitRate, bitDepth, channels, codecName)
    }

    /** SendAudio divides by the channel count and the bit depth, so the
        format must have been set. With the gate closed only the sample
        position moves. With it open the message is sent as not resent,
        the oldest history entry is released if the history is full, the
        message goes into the history marked resent, and the frame number
        advances. */
    method SendAudio(data: seq<Byte>, halt: bool)
      requires Valid() && channels > 0 && bitDepth > 0
      modifies this`sampleStart, this`frame, this`sent, this`released, history, history.buf
      ensures Valid()
      ensures sampleStart == Trunc64(old(sampleStart) + SamplesOf(|data|, channels, bitDepth))
      ensures !send ==> (frame == old(frame) && sent == old(sent) && released == old(released)
        && history.contents == old(history.contents))
      ensures send ==> (frame == Inc32(old(frame))
        && sent == old(sent) + [Datagram(endpoint, Image(old(Next(data, halt))))]
        && history.contents == Capped(old(history.contents), maxHistory) + [AsResent(old(Next(data, halt)))]
        && released == old(released) + Evicted(old(history.contents), maxHistory))
    {
      var samples := SamplesOf(|data|, channels, bitDepth);
      if send {
        Transmit(Next(data, halt));
        frame := Inc32(frame);
      }
      sampleStart := Trunc64(sampleStart + samples);
    }

    /** The sending half of SendAudio: room is made, the message goes into
        the history marked resent and onto the socket as it is. */
    method Transmit(msg: Sendable)
      requires Valid()
      modifies this`sent, this`released, history, history.buf
      ensures Valid()
      ensures sent == old(sent) + [Datagram(endpoint, Image(msg))]
      ensures history.contents == Capped(old(history.contents), maxHistory) + [AsResent(msg)]
      ensures released == old(released) + Evicted(old(history.contents), maxHistory)
    {
      MakeRoom();
      history.Write(AsResent(msg));
      sent := sent + [Datagram(endpoint, Image(msg))];
    }

    /** Releases the oldest history entry when the history is full. */
    method MakeRoom()
      requires Valid()
      modifies this`released, history, history.buf
      ensures Valid() && |history.contents| < maxHistory
      ensures history.contents == Capped(old(history.contents), maxHistory)
      ensures released == old(released) + Evicted(old(history.contents), maxHistory)
    {
      if history.SlotsUsed() == maxHistory {
        var oldest := history.Read();
        released := released + [oldest];
      }
    }

    /** Enabling opens the gate when the driver is active; disabling it
        while sending resets the driver. */
    method SetEnabled(value: bool)
      requires Valid()
      modifies this`enabled, this`send, this`frame, this`released, history, history.buf
      ensures Valid() && enabled == value && send == (value && active)
      ensures old(send) && !value ==> (frame == 0 && history.contents == []
        && released == old(released) + old(history.contents))
      ensures !(old(send) && !value) ==> (frame == old(frame) && history.contents == old(history.contents)
        && released == old(released))
    {
      enabled := value;
      if send {
        if !value {
          ResetLocked();
        }
      } else {
        if value && active {
          send := true;
        }
      }
    }

    /** The same gate, from the active side. */
    method SetActive(value: bool)
      requires Valid()
      modifies this`active, this`send, this`frame, this`released, history, history.buf
      ensures Valid() && active == value && send == (enabled && value)
      ensures old(send) && !value ==> (frame == 0 && history.contents == []
        && released == old(released) + old(history.contents))
      ensures !(old(send) && !value) ==> (frame == old(frame) && history.contents == old(history.contents)
        && released == old(released))
    {
      active := value;
      if send {
        if !value {
          ResetLocked();
        }
      } else {
        if value && enabled {
          send := true;
        }
      }
    }

    /** ResetLocked: the gate closes, numbering restarts at 0, and every
        history entry is released, oldest first. */
    method ResetLocked()
      requires history.Valid() && history.slots == maxHistory && maxHistory > 0 && |codecName| < 0x100
      requires !(enabled && active)
      modifies this`send, this`frame, this`released, history, history.buf
      ensures Valid() && !send && frame == 0 && history.contents == []
      ensures released == old(released) + old(history.contents)
    {
      send := false;
      frame := 0;
      ghost var h0 := history.contents;
      ghost var r0 := released;
      var count := history.SlotsUsed();
      var i := 0;
      while i < count
        invariant 0 <= i <= count == |h0|
        invariant history.Valid() && history.slots == maxHistory
        invariant history.contents == h0[i..] && released == r0 + h0[..i]
        invariant !send && frame == 0
      {
        var m := history.Read();
        released := released + [m];
        assert h0[..i + 1] == h0[..i] + [m];
        i := i + 1;
      }
      assert h0[..i] == h0;
    }

    method SetEndpoint(e: Endpoint, a: U32)
      modifies this`endpoint, this`adapter
      ensures endpoint == e && adapter == a
    {
      endpoint, adapter := e, a;
    }

    method SetTtl(value: U32)
      modifies this`ttl
      ensures ttl == value
    {
      ttl := value;
    }

    method SetLatency(value: U32)
      modifies this`latency
      ensures latency == value
    {
      latency := value;
    }

    method SetTrackPosition(total: U64, start: U64)
      modifies this`samplesTotal, this`sampleStart
      ensures samplesTotal == total && sampleStart == start
    {
      samplesTotal, sampleStart := total, start;
    }

    /** Resend: the request is a list of big-endian frame numbers, at least
        one. Every history entry is read and written back once, so the
        history keeps its contents and order; the entries picked are sent
        again as they are stored (marked resent), in history order, and each
        of them carries a requested frame. An entry carrying the first
        requested frame as the oldest entry is always picked. */
    method Resend(request: seq<Byte>) returns (ghost hits: seq<bool>)
      requires Valid() && |request| >= 4
      modifies this`sent, history, history.buf
      ensures Valid() && history.contents == old(history.contents)
      ensures |hits| == |history.contents|
      ensures sent == old(sent) + Picked(endpoint, history.contents, hits)
      ensures forall k :: 0 <= k < |hits| && hits[k] ==> Requested(request, history.contents[k].header.frame)
      ensures |hits| > 0 && history.contents[0].header.frame == RequestFrame(request, 0) ==> hits[0]
    {
      ghost var h0 := history.contents;
      ghost var s0 := sent;
      var frames: nat := |request| / 4 - 1;
      var pos: nat := 0;
      var frame := RequestFrame(request, 0);
      var found := false;
      hits := [];
      var count := history.SlotsUsed();
      var i := 0;
      while i < count
        invariant i <= count == |h0| && Walked(request, h0, s0, i, hits)
        invariant !found ==> Cursor(request, pos, frames, frame)
        invariant i > 0 && h0[0].header.frame == RequestFrame(request, 0) ==> hits[0]
        invariant i == 0 ==> !found && pos == 0
      {
        pos, frames, frame, found, hits := ResendEntry(request, h0, i, pos, frames, frame, found, s0, hits);
        i := i + 1;
      }
      RotateBack(h0);
    }

    /** Resend's loop has gone through the first i entries of h0: the
        history is h0 rotated by i, and the picked ones among them, each
        carrying a requested frame, have been sent after s0. */
    ghost predicate Walked(request: seq<Byte>, h0: seq<Sendable>, s0: seq<Datagram>, i: nat, hits: seq<bool>)
      reads this, history, history.buf
    {
      i <= |h0| && |hits| == i && history.Valid() && history.slots == maxHistory
      && history.contents == h0[i..] + h0[..i]
      && sent == s0 + Picked(endpoint, h0[..i], hits)
      && forall k :: 0 <= k < i && hits[k] ==> Requested(request, h0[k].header.frame)
    }

    /** The oldest history entry, read and written straight back as the
        newest. */
    method Recycle() returns (msg: Sendable)
      requires history.Valid() && history.slots == maxHistory && |history.contents| > 0
      modifies history, history.buf
      ensures history.Valid() && msg == old(history.contents[0])
      ensures history.contents == old(history.contents[1..]) + [msg]
    {
      msg := history.Read();
      history.Write(msg);
    }

    /** One turn of Resend's loop: the oldest entry is read and written
        back as the newest, and sent again if it matches the request. */
    method ResendEntry(request: seq<Byte>, ghost h0: seq<Sendable>, ghost i: nat,
                       pos0: nat, frames0: nat, frame0: U32, found0: bool,
                       ghost s0: seq<Datagram>, ghost hits0: seq<bool>)
      returns (pos: nat, frames: nat, frame: U32, found: bool, ghost hits: seq<bool>)
      requires i < |h0| && Walked(request, h0, s0, i, hits0)
      requires !found0 ==> Cursor(request, pos0, frames0, frame0)
      modifies this`sent, history, history.buf
      ensures Walked(request, h0, s0, i + 1, hits) && hits[..i] == hits0
      ensures !found ==> Cursor(request, pos, frames, frame)
      ensures !found0 && frame0 == h0[i].header.frame ==> hits[i]
    {
      assert history.contents[0] == h0[i];
      var msg := Recycle();
      var hit;
      pos, frames, frame, found, hit := MatchFrame(request, msg.header.frame, pos0, frames0, frame0, found0);
      if hit {
        sent := sent + [Datagram(endpoint, Image(msg))];
      }
      RotateStep(h0, i);
      PickedStep(endpoint, h0, i, hits0, hit);
      hits := hits0 + [hit];
      assert hits[..i] == hits0;
    }
  }

  /** Moving the oldest entry of a rotation to the back rotates once more. */
  lemma RotateStep<T>(h: seq<T>, i: nat)
    requires i < |h|
    ensures (h[i..] + h[..i])[1..] + [h[i]] == h[i + 1..] + h[..i + 1]
  {
    assert h[..i + 1] == h[..i] + [h[i]];
  }

  /** A full rotation gives the sequence back. */
  lemma RotateBack<T>(h: seq<T>)
    ensures h[|h|..] + h[..|h|] == h
  {
  }

  /** Picking over one more entry appends that entry's datagram on a hit. */
  lemma PickedStep(to: Endpoint, h: seq<Sendable>, i: nat, hits: seq<bool>, hit: bool)
    requires i < |h| && |hits| == i
    ensures Picked(to, h[..i + 1], hits + [hit])
      == Picked(to, h[..i], hits) + (if hit then [Datagram(to, Image(h[i]))] else [])
  {
    assert h[..i + 1][..i] == h[..i];
    assert (hits + [hit])[..i] == hits;
  }
}
