// The socket and the audio message of the ohSoundcard Mac kernel driver
// (Songcast.cpp of that driver). Unlike the ohSongcast driver there is no
// history: one message is rewritten in place for every packet, and the
// socket decides, from its state, whether the packet goes out and whether
// it is forced to halt.
//
// The message memory has the same packed layout as the ohSongcast driver's
// (the 8-byte common header, the 50-byte audio header and the 3-byte codec
// name in network order, then the audio), so the image the socket sends is
// MacSongcast.Wire of the host-order header fields.
module SoundcardSongcast {
  import opened Octets
  import opened OhmWire
  import MacSongcast

  /** The audio size the constructor computes, in 32-bit arithmetic. */
  function AudioBytesFor(frames: U32, channels: U32, bitDepth: U32): (n: U32)
    ensures frames * channels * bitDepth < 0x1_0000_0000 ==> 8 * n <= frames * channels * bitDepth < 8 * n + 8
  {
    Trunc32(frames * channels * bitDepth) / 8
  }

  /** The header the constructor leaves: the fields it writes over the
      freshly allocated memory, whose frame, sample rate and bit rate it
      does not touch. */
  function ConstructedHeader(memory: AudioHeader, frames: U32, channels: U32, bitDepth: U32): AudioHeader
  {
    memory.(flags := 6, samples := Trunc16(frames), networkTimestamp := 0,
      mediaLatency := 1_000_000, mediaTimestamp := 0, sampleStart := 0, samplesTotal := 0,
      volumeOffset := 0, bitDepth := Trunc8(bitDepth), channels := Trunc8(channels), codecName := MacSongcast.Codec)
  }

  /** A constructed message is lossless and timestamped, neither halting nor
      resent, carries a 1 s latency, zero timestamps and sample counts, and
      the "PCM" codec; the frame, rate and bit rate are whatever the memory
      held. (MacSongcast.WireDecodes gives back these fields from the image.) */
  lemma ConstructedHeaderMeaning(memory: AudioHeader, frames: U32, channels: U32, bitDepth: U32)
    ensures var h := ConstructedHeader(memory, frames, channels, bitDepth);
      && !HasFlag(h.flags, FlagHalt) && HasFlag(h.flags, FlagLossless)
      && HasFlag(h.flags, FlagTimestamped) && !HasFlag(h.flags, FlagResent)
      && h.mediaLatency == 1_000_000 && h.networkTimestamp == h.mediaTimestamp == 0
      && h.sampleStart == h.samplesTotal == 0 && h.codecName == MacSongcast.Codec
      && h.frame == memory.frame && h.sampleRate == memory.sampleRate && h.bitRate == memory.bitRate
      && (frames < 0x1_0000 ==> h.samples == frames)
  {
    HaltFlagMeaning(false);
  }

  /** The flags byte SetHaltFlag writes says halt exactly when asked and is
      always lossless, timestamped and not resent. */
  lemma HaltFlagMeaning(halt: bool)
    ensures HasFlag(MacSongcast.HeaderFlags(halt), FlagHalt) == halt
    ensures HasFlag(MacSongcast.HeaderFlags(halt), FlagLossless) && HasFlag(MacSongcast.HeaderFlags(halt), FlagTimestamped)
    ensures !HasFlag(MacSongcast.HeaderFlags(halt), FlagResent)
  {
    if halt {
      assert MacSongcast.HeaderFlags(halt) == 7;
    } else {
      assert MacSongcast.HeaderFlags(halt) == 6;
    }
  }

  /** SongcastAudioMessage: one packet buffer of a fixed audio size. */
  class AudioMessage {
    /** iAudioBytes. */
    const audioBytes: U32
    /** The header fields, host order. */
    var header: AudioHeader
    /** The audio area after the header. */
    var audio: seq<Byte>

    ghost predicate Valid()
      reads this
    {
      |audio| == audioBytes && header.codecName == MacSongcast.Codec
    }

    /** The memory the socket sends: Ptr() for Bytes() bytes. */
    function Image(): (s: seq<Byte>)
      reads this
      requires Valid()
      ensures |s| == MacSongcast.StructBytes + audioBytes
    {
      MacSongcast.Wire(header, audioBytes, audio)
    }

    /** memory and memoryAudio stand for what the allocation held before
        the constructor wrote its fields. */
    constructor (frames: U32, channels: U32, bitDepth: U32, memory: AudioHeader, memoryAudio: seq<Byte>)
      requires |memoryAudio| == AudioBytesFor(frames, channels, bitDepth)
      ensures Valid() && audioBytes == AudioBytesFor(frames, channels, bitDepth)
      ensures header == ConstructedHeader(memory, frames, channels, bitDepth) && audio == memoryAudio
    {
      audioBytes := AudioBytesFor(frames, channels, bitDepth);
      header := ConstructedHeader(memory, frames, channels, bitDepth);
      audio := memoryAudio;
    }

    method SetHaltFlag(halt: bool)
      requires Valid()
      modifies this`header
      ensures Valid() && header == old(header).(flags := MacSongcast.HeaderFlags(halt))
    {
      header := header.(flags := MacSongcast.HeaderFlags(halt));
    }

    /** The bit rate is computed in 32 bits from the header's own channel
        count and depth. */
    method SetSampleRate(rate: U32)
      requires Valid()
      modifies this`header
      ensures Valid()
      ensures header == old(header).(sampleRate := rate,
        bitRate := Trunc32(rate * old(header).channels as int * old(header).bitDepth as int))
    {
      header := header.(sampleRate := rate,
        bitRate := Trunc32(rate * header.channels as int * header.bitDepth as int));
    }

    method SetFrame(frame: U32)
      requires Valid()
      modifies this`header
      ensures Valid() && header == old(header).(frame := frame)
    {
      header := header.(frame := frame);
    }

    /** The media timestamp is a copy of the network timestamp. */
    method SetTimestamp(t: U32)
      requires Valid()
      modifies this`header
      ensures Valid() && header == old(header).(networkTimestamp := t, mediaTimestamp := t)
    {
      header := header.(networkTimestamp := t);
      header := header.(mediaTimestamp := header.networkTimestamp);
    }

    method SetData(data: seq<Byte>)
      requires Valid()
      modifies this`audio
      ensures Valid() && audio == MacSongcast.Payload(data, audioBytes)
    {
      audio := MacSongcast.Payload(data, audioBytes);
    }
  }

  // ---------------------------------------------------------------------
  // SongcastSocket

  datatype State = Inactive | Active | PendingInactiveHalt

  /** SetActive: there is no pending state, zero deactivates at once. */
  function StateFor(active: U64): State
  {
    if active != 0 then Active else Inactive
  }

  /** The state after a Send on an open socket. */
  function NextState(s: State): State
  {
    if s == PendingInactiveHalt then Inactive else s
  }

  /** The halt flags on the wire for a run of Sends on an open socket that
      starts in s, the messages carrying the given halt flags. */
  function SentHalts(s: State, halts: seq<bool>): seq<bool>
    decreases |halts|
  {
    if |halts| == 0 || s == Inactive then []
    else [halts[0] || s == PendingInactiveHalt] + SentHalts(NextState(s), halts[1..])
  }

  /** After SetInactiveAndHalt exactly one more message goes out, and it
      halts. */
  lemma OneHaltAfterStop(halts: seq<bool>)
    requires |halts| > 0
    ensures SentHalts(PendingInactiveHalt, halts) == [true]
  {
  }

  /** After SetActive(0) nothing more goes out at all. */
  lemma NothingAfterDeactivate(halts: seq<bool>)
    ensures SentHalts(StateFor(0), halts) == []
  {
  }

  /** While active every message goes out with its own halt flag. */
  lemma {:induction false} ActiveSendsAll(halts: seq<bool>)
    ensures SentHalts(Active, halts) == halts
    decreases |halts|
  {
    if |halts| > 0 {
      ActiveSendsAll(halts[1..]);
      assert halts == [halts[0]] + halts[1..];
    }
  }

  class SongcastSocket {
    /** iSocket != 0. */
    var open: bool
    var ttl: U64
    var state: State
    /** The datagrams handed to sock_send, oldest first. */
    var sent: seq<seq<Byte>>

    constructor ()
      ensures !open && ttl == 4 && state == Inactive && sent == []
    {
      open := false;
      ttl := 4;
      state := Inactive;
      sent := [];
    }

    /** Open closes any previous socket, then creates and connects a new
        one; created tells whether both calls succeeded, and a failure
        leaves the socket closed. */
    method Open(created: bool)
      modifies this`open
      ensures open == created
    {
      Close();
      if created {
        open := true;
      }
    }

    method Close()
      modifies this`open
      ensures !open
    {
      if open {
        open := false;
      }
    }

    /** Nothing is sent without a socket or while inactive. In the pending
        state the message is forced to halt, sent, and the socket becomes
        inactive. */
    method Send(msg: AudioMessage)
      requires msg.Valid()
      modifies this`state, this`sent, msg`header
      ensures msg.Valid()
      ensures !old(open) || old(state) == Inactive ==>
        state == old(state) && sent == old(sent) && msg.header == old(msg.header)
      ensures old(open) && old(state) != Inactive ==>
        && msg.header == (if old(state) == PendingInactiveHalt then old(msg.header).(flags := MacSongcast.HeaderFlags(true)) else old(msg.header))
        && sent == old(sent) + [msg.Image()] && state == NextState(old(state))
      ensures old(open) ==> var out := SentHalts(old(state), [HasFlag(old(msg.header).flags, FlagHalt)]);
        |sent| == |old(sent)| + |out| && (|out| == 1 ==> HasFlag(msg.header.flags, FlagHalt) == out[0])
    {
      HaltFlagMeaning(true);
      if !open || state == Inactive {
        return;
      }
      if state == PendingInactiveHalt {
        msg.SetHaltFlag(true);
      }
      sent := sent + [msg.Image()];
      if state == PendingInactiveHalt {
        state := Inactive;
      }
    }

    method SetActive(active: U64)
      modifies this`state
      ensures state == StateFor(active)
    {
      state := if active != 0 then Active else Inactive;
    }

    method SetInactiveAndHalt()
      modifies this`state
      ensures state == PendingInactiveHalt
    {
      state := PendingInactiveHalt;
    }

    method SetTtl(t: U64)
      modifies this`ttl
      ensures ttl == t
    {
      ttl := t;
    }
  }
}
