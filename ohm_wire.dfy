// The Ohm wire format: the 8-byte common header, the audio header and its
// flag bits, the track and metatext bodies, and the in-memory OHMHEADER
// struct that the Windows driver fills in before sending.
module OhmWire {
  import opened Octets

  /** "Ohm " */
  const Magic: seq<Byte> := [0x4f, 0x68, 0x6d, 0x20]
  const HeaderBytes: nat := 8
  const AudioHeaderBytes: nat := 50
  const TrackHeaderBytes: nat := 12
  const MetatextHeaderBytes: nat := 8

  const FlagHalt: nat := 1
  const FlagLossless: nat := 2
  const FlagTimestamped: nat := 4
  const FlagResent: nat := 8

  const MsgJoin: Byte := 0
  const MsgListen: Byte := 1
  const MsgLeave: Byte := 2
  const MsgAudio: Byte := 3
  const MsgTrack: Byte := 4
  const MsgMetatext: Byte := 5
  const MsgSlave: Byte := 6
  const MsgResend: Byte := 7

  /** Pool sizes of the driver's message factory. */
  const MaxAudioMessages: nat := 300
  const MaxTrackMessages: nat := 10
  const MaxMetatextMessages: nat := 10

  datatype Option<T> = None | Some(value: T)

  /** The UDP port of the Ohm protocol (Ohm::kPort). */
  const OhmPort: U16 := 51972

  /** An IPv4 endpoint: the address in host order and the port. */
  datatype Endpoint = Endpoint(address: U32, port: U16)

  /** Whether the single-bit mask is set in a flags byte. */
  predicate HasFlag(flags: Byte, mask: nat)
    requires mask in {FlagHalt, FlagLossless, FlagTimestamped, FlagResent}
  {
    (flags as int / mask) % 2 == 1
  }

  lemma FlagBitsDistinct(flags: Byte)
    ensures HasFlag(flags, FlagHalt) <==> flags % 2 == 1
    ensures HasFlag(flags, FlagLossless) <==> (flags / 2) % 2 == 1
    ensures !HasFlag(0, FlagHalt) && !HasFlag(0, FlagResent)
    ensures HasFlag(3, FlagHalt) && HasFlag(3, FlagLossless) && !HasFlag(3, FlagTimestamped)
  {
  }

  /** flags | 0x08: the resent bit set, every other bit kept. */
  function WithResentFlag(flags: Byte): (r: Byte)
    ensures HasFlag(r, FlagResent)
    ensures HasFlag(r, FlagHalt) == HasFlag(flags, FlagHalt)
    ensures HasFlag(r, FlagLossless) == HasFlag(flags, FlagLossless)
    ensures HasFlag(r, FlagTimestamped) == HasFlag(flags, FlagTimestamped)
  {
    if HasFlag(flags, FlagResent) then flags else
      AddResentBit(flags as int);
      (flags as int + 8) as Byte
  }

  /** Adding 8 to a byte whose bit 3 is clear sets that bit and no other. */
  lemma AddResentBit(f: int)
    requires 0 <= f < 0x100 && (f / 8) % 2 == 0
    ensures f + 8 < 0x100 && ((f + 8) / 8) % 2 == 1
    ensures (f + 8) % 2 == f % 2 && ((f + 8) / 2) % 2 == (f / 2) % 2
    ensures ((f + 8) / 4) % 2 == (f / 4) % 2
  {
    var q, r := f / 8, f % 8;
    assert f == 8 * q + r && q <= 30;
    assert (f + 8) / 8 == q + 1;
    assert f / 4 == 2 * q + r / 4 && (f + 8) / 4 == 2 * (q + 1) + r / 4;
    assert f / 2 == 4 * q + r / 2 && (f + 8) / 2 == 4 * (q + 1) + r / 2;
  }

  // ---------------------------------------------------------------------
  // Common header

  /** The common header: magic, major version, message type, total bytes. */
  datatype Header = Header(version: Byte, msgType: Byte, totalBytes: U16)

  function EncodeHeader(h: Header): (s: seq<Byte>)
    ensures |s| == HeaderBytes && s[..4] == Magic
    ensures s[4] == h.version && s[5] == h.msgType
  {
    Magic + [h.version, h.msgType] + EncodeBe16(h.totalBytes)
  }

  /** Reads a common header, refusing a short buffer or a wrong magic. */
  function DecodeHeader(s: seq<Byte>): (r: Option<Header>)
    ensures r.Some? <==> |s| >= HeaderBytes && s[..4] == Magic
    ensures r.Some? ==> r.value.msgType == s[5]
  {
    if |s| < HeaderBytes || s[..4] != Magic then None
    else Some(Header(s[4], s[5], DecodeBe16(s, 6)))
  }

  lemma {:induction false} HeaderRoundTrip(h: Header, rest: seq<Byte>)
    ensures DecodeHeader(EncodeHeader(h) + rest) == Some(h)
  {
    var s := EncodeHeader(h) + rest;
    assert s[..4] == Magic;
    assert s[6..8] == EncodeBe16(h.totalBytes);
    DecodeBe16At(s, 6, h.totalBytes);
  }

  // ---------------------------------------------------------------------
  // Audio header

  /** The audio header's fields in host order. */
  datatype AudioHeader = AudioHeader(
    flags: Byte, samples: U16, frame: U32, networkTimestamp: U32,
    mediaLatency: U32, mediaTimestamp: U32, sampleStart: U64,
    samplesTotal: U64, sampleRate: U32, bitRate: U32, volumeOffset: U16,
    bitDepth: Byte, channels: Byte, codecName: seq<Byte>)

  ghost predicate CodecFits(a: AudioHeader) { |a.codecName| < 0x100 }

  /** The audio header as sent: 50 fixed bytes then the codec name. */
  function EncodeAudioHeader(a: AudioHeader): (s: seq<Byte>)
    requires CodecFits(a)
    ensures |s| == AudioHeaderBytes + |a.codecName|
    ensures s[0] as int == AudioHeaderBytes && s[1] == a.flags
    ensures s[46] == a.bitDepth && s[47] == a.channels && s[48] == 0
    ensures s[49] as int == |a.codecName| && s[AudioHeaderBytes..] == a.codecName
  {
    [AudioHeaderBytes as Byte, a.flags] + EncodeBe16(a.samples) + EncodeBe32(a.frame)
    + EncodeBe32(a.networkTimestamp) + EncodeBe32(a.mediaLatency)
    + EncodeBe32(a.mediaTimestamp) + EncodeBe64(a.sampleStart)
    + EncodeBe64(a.samplesTotal) + EncodeBe32(a.sampleRate) + EncodeBe32(a.bitRate)
    + EncodeBe16(a.volumeOffset) + [a.bitDepth, a.channels, 0, |a.codecName| as Byte]
    + a.codecName
  }

  /** Reads the fields from the offsets of the layout table: samples 2,
      frame 4, network timestamp 8, latency 12, media timestamp 16, sample
      start 20, samples total 28, rate 36, bit rate 40, volume 44, depth 46,
      channels 47, codec-name length 49, codec name 50. */
  function DecodeAudioHeader(s: seq<Byte>): (r: Option<AudioHeader>)
    ensures r.Some? ==> |s| >= AudioHeaderBytes + |r.value.codecName|
  {
    if |s| < AudioHeaderBytes || |s| < AudioHeaderBytes + s[49] as int then None
    else Some(AudioHeader(
      s[1], DecodeBe16(s, 2), DecodeBe32(s, 4), DecodeBe32(s, 8),
      DecodeBe32(s, 12), DecodeBe32(s, 16), DecodeBe64(s, 20),
      DecodeBe64(s, 28), DecodeBe32(s, 36), DecodeBe32(s, 40),
      DecodeBe16(s, 44), s[46], s[47], s[50..50 + s[49] as int]))
  }

  /** A sequence that starts with p + x starts with p, and x follows it. */
  lemma Peel(p: seq<Byte>, x: seq<Byte>, s: seq<Byte>)
    requires |p + x| <= |s| && s[..|p + x|] == p + x
    ensures s[..|p|] == p && s[|p|..|p| + |x|] == x
  {
    assert s[..|p|] == (p + x)[..|p|];
    assert s[|p|..|p| + |x|] == (p + x)[|p|..];
  }

  lemma {:induction false} AudioHeaderRoundTrip(a: AudioHeader, pcm: seq<Byte>)
    requires CodecFits(a)
    ensures DecodeAudioHeader(EncodeAudioHeader(a) + pcm) == Some(a)
  {
    var e := EncodeAudioHeader(a);
    var s := e + pcm;
    var p0: seq<Byte> := [AudioHeaderBytes as Byte, a.flags];
    var p1 := p0 + EncodeBe16(a.samples);
    var p2 := p1 + EncodeBe32(a.frame);
    var p3 := p2 + EncodeBe32(a.networkTimestamp);
    var p4 := p3 + EncodeBe32(a.mediaLatency);
    var p5 := p4 + EncodeBe32(a.mediaTimestamp);
    var p6 := p5 + EncodeBe64(a.sampleStart);
    var p7 := p6 + EncodeBe64(a.samplesTotal);
    var p8 := p7 + EncodeBe32(a.sampleRate);
    var p9 := p8 + EncodeBe32(a.bitRate);
    var p10 := p9 + EncodeBe16(a.volumeOffset);
    var p11 := p10 + [a.bitDepth, a.channels, 0, |a.codecName| as Byte];
    assert e == p11 + a.codecName;
    assert s[..|e|] == e;
    Peel(p11, a.codecName, s);
    Peel(p10, [a.bitDepth, a.channels, 0, |a.codecName| as Byte], s);
    Peel(p9, EncodeBe16(a.volumeOffset), s);
    Peel(p8, EncodeBe32(a.bitRate), s);
    Peel(p7, EncodeBe32(a.sampleRate), s);
    Peel(p6, EncodeBe64(a.samplesTotal), s);
    Peel(p5, EncodeBe64(a.sampleStart), s);
    Peel(p4, EncodeBe32(a.mediaTimestamp), s);
    Peel(p3, EncodeBe32(a.mediaLatency), s);
    Peel(p2, EncodeBe32(a.networkTimestamp), s);
    Peel(p1, EncodeBe32(a.frame), s);
    Peel(p0, EncodeBe16(a.samples), s);
    DecodeBe16At(s, 2, a.samples);
    DecodeBe32At(s, 4, a.frame);
    DecodeBe32At(s, 8, a.networkTimestamp);
    DecodeBe32At(s, 12, a.mediaLatency);
    DecodeBe32At(s, 16, a.mediaTimestamp);
    DecodeBe64At(s, 20, a.sampleStart);
    DecodeBe64At(s, 28, a.samplesTotal);
    DecodeBe32At(s, 36, a.sampleRate);
    DecodeBe32At(s, 40, a.bitRate);
    DecodeBe16At(s, 44, a.volumeOffset);
    assert s[50..50 + s[49] as int] == a.codecName;
  }

  // ---------------------------------------------------------------------
  // Track and metatext bodies

  ghost predicate Fits32(b: seq<Byte>) { |b| < 0x1_0000_0000 }

  /** Track body: sequence, uri length and metadata length as big-endian
      u32, then the uri and metadata bytes. */
  function EncodeTrack(sequence: U32, uri: seq<Byte>, metadata: seq<Byte>): (s: seq<Byte>)
    requires Fits32(uri) && Fits32(metadata)
    ensures |s| == TrackHeaderBytes + |uri| + |metadata|
    ensures s[TrackHeaderBytes..] == uri + metadata
  {
    EncodeBe32(sequence) + EncodeBe32(|uri|) + EncodeBe32(|metadata|) + uri + metadata
  }

  datatype Track = Track(sequence: U32, uri: seq<Byte>, metadata: seq<Byte>)

  /** Reads a track body, using the lengths in its header to split the
      uri from the metadata. */
  function DecodeTrack(s: seq<Byte>): (r: Option<Track>)
    ensures r.Some? ==> |s| >= TrackHeaderBytes + |r.value.uri| + |r.value.metadata|
  {
    if |s| < TrackHeaderBytes then None
    else
      var u, m := DecodeBe32(s, 4), DecodeBe32(s, 8);
      if |s| < TrackHeaderBytes + u + m then None
      else Some(Track(DecodeBe32(s, 0), s[12..12 + u], s[12 + u..12 + u + m]))
  }

  lemma {:induction false} TrackRoundTrip(sequence: U32, uri: seq<Byte>, metadata: seq<Byte>, rest: seq<Byte>)
    requires Fits32(uri) && Fits32(metadata)
    ensures DecodeTrack(EncodeTrack(sequence, uri, metadata) + rest) == Some(Track(sequence, uri, metadata))
  {
    var s := EncodeTrack(sequence, uri, metadata) + rest;
    assert s[0..4] == EncodeBe32(sequence);
    assert s[4..8] == EncodeBe32(|uri|);
    assert s[8..12] == EncodeBe32(|metadata|);
    DecodeBe32At(s, 0, sequence);
    DecodeBe32At(s, 4, |uri|);
    DecodeBe32At(s, 8, |metadata|);
    assert s[12..12 + |uri|] == uri;
    assert s[12 + |uri|..12 + |uri| + |metadata|] == metadata;
  }

  /** Metatext body: sequence and text length as big-endian u32, then the text. */
  function EncodeMetatext(sequence: U32, text: seq<Byte>): (s: seq<Byte>)
    requires Fits32(text)
    ensures |s| == MetatextHeaderBytes + |text|
    ensures s[MetatextHeaderBytes..] == text
  {
    EncodeBe32(sequence) + EncodeBe32(|text|) + text
  }

  datatype Metatext = Metatext(sequence: U32, text: seq<Byte>)

  function DecodeMetatext(s: seq<Byte>): (r: Option<Metatext>)
    ensures r.Some? ==> |s| >= MetatextHeaderBytes + |r.value.text|
  {
    if |s| < MetatextHeaderBytes then None
    else
      var n := DecodeBe32(s, 4);
      if |s| < MetatextHeaderBytes + n then None
      else Some(Metatext(DecodeBe32(s, 0), s[8..8 + n]))
  }

  lemma {:induction false} MetatextRoundTrip(sequence: U32, text: seq<Byte>, rest: seq<Byte>)
    requires Fits32(text)
    ensures DecodeMetatext(EncodeMetatext(sequence, text) + rest) == Some(Metatext(sequence, text))
  {
    var s := EncodeMetatext(sequence, text) + rest;
    assert s[0..4] == EncodeBe32(sequence);
    assert s[4..8] == EncodeBe32(|text|);
    DecodeBe32At(s, 0, sequence);
    DecodeBe32At(s, 4, |text|);
    assert s[8..8 + |text|] == text;
  }
  // ---------------------------------------------------------------------
  // Slave body: the number of slaves as a big-endian u32, then one 6-byte
  // entry per slave, its address (big-endian u32) and port (big-endian u16).

  const SlaveEntryBytes: nat := 6

  function EncodeSlaveEntries(slaves: seq<Endpoint>): (s: seq<Byte>)
    ensures |s| == SlaveEntryBytes * |slaves|
    decreases |slaves|
  {
    if |slaves| == 0 then []
    else
      var last := slaves[|slaves| - 1];
      EncodeSlaveEntries(slaves[..|slaves| - 1]) + EncodeBe32(last.address) + EncodeBe16(last.port)
  }

  function EncodeSlaves(slaves: seq<Endpoint>): (s: seq<Byte>)
    requires |slaves| < 0x1_0000_0000
    ensures |s| == 4 + SlaveEntryBytes * |slaves|
  {
    EncodeBe32(|slaves|) + EncodeSlaveEntries(slaves)
  }

  /** The first count entries of s. */
  function DecodeSlaveEntries(s: seq<Byte>, count: nat): (r: seq<Endpoint>)
    requires SlaveEntryBytes * count <= |s|
    ensures |r| == count
  {
    if count == 0 then []
    else
      var at := SlaveEntryBytes * (count - 1);
      DecodeSlaveEntries(s, count - 1) + [Endpoint(DecodeBe32(s, at), DecodeBe16(s, at + 4))]
  }

  /** Reads a slave body; None when it is shorter than its count says. */
  function DecodeSlaves(s: seq<Byte>): (r: Option<seq<Endpoint>>)
    ensures r.Some? ==> |s| >= 4 + SlaveEntryBytes * |r.value|
  {
    if |s| < 4 then None
    else
      var n := DecodeBe32(s, 0);
      if |s| < 4 + SlaveEntryBytes * n then None
      else Some(DecodeSlaveEntries(s[4..], n))
  }

  lemma {:induction false} SlaveEntriesRoundTrip(slaves: seq<Endpoint>, rest: seq<Byte>)
    ensures SlaveEntryBytes * |slaves| <= |EncodeSlaveEntries(slaves) + rest|
    ensures DecodeSlaveEntries(EncodeSlaveEntries(slaves) + rest, |slaves|) == slaves
    decreases |slaves|
  {
    if |slaves| > 0 {
      var init, last := slaves[..|slaves| - 1], slaves[|slaves| - 1];
      var tail := EncodeBe32(last.address) + EncodeBe16(last.port);
      var s := EncodeSlaveEntries(slaves) + rest;
      assert s == EncodeSlaveEntries(init) + (tail + rest);
      SlaveEntriesRoundTrip(init, tail + rest);
      var at := SlaveEntryBytes * |init|;
      assert s[at..at + 4] == EncodeBe32(last.address);
      assert s[at + 4..at + 6] == EncodeBe16(last.port);
      DecodeBe32At(s, at, last.address);
      DecodeBe16At(s, at + 4, last.port);
      assert slaves == init + [last];
    }
  }

  /** A receiver reads back exactly the slaves the sender listed. */
  lemma {:induction false} SlavesRoundTrip(slaves: seq<Endpoint>, rest: seq<Byte>)
    requires |slaves| < 0x1_0000_0000
    ensures DecodeSlaves(EncodeSlaves(slaves) + rest) == Some(slaves)
  {
    var s := EncodeSlaves(slaves) + rest;
    assert s[0..4] == EncodeBe32(|slaves|);
    DecodeBe32At(s, 0, |slaves|);
    assert s[4..] == EncodeSlaveEntries(slaves) + rest;
    SlaveEntriesRoundTrip(slaves, rest);
  }


  // ---------------------------------------------------------------------
  // OHMHEADER: the 64-byte struct the Windows driver keeps in memory. Its
  // multi-byte fields hold values the driver has already byte-reversed
  // (Swap16/Swap32), so that the little-endian memory image is in network
  // order. The flags byte is a bit-vector because it is updated with bit
  // operations.

  datatype HeaderStruct = HeaderStruct(
    majorVersion: Byte, msgType: Byte, totalBytes: U16,
    audioHeaderBytes: Byte, audioFlags: bv8, audioSamples: U16, audioFrame: U32,
    networkTimestamp: U32, mediaLatency: U32, mediaTimestamp: U32,
    sampleStartHi: U32, sampleStartLo: U32, samplesTotalHi: U32, samplesTotalLo: U32,
    sampleRate: U32, bitRate: U32, volumeOffset: U16,
    bitDepth: Byte, channels: Byte, reserved: Byte, codecNameBytes: Byte)

  /** sizeof(OHMHEADER): 8 common + 50 audio + 6 codec-name bytes, no padding. */
  const HeaderStructBytes: nat := 64

  /** OhmMsgAudio::Resent: bit 0x08 of the flags. */
  predicate Resent(h: HeaderStruct)
  {
    h.audioFlags & 0x08 != 0
  }

  /** OhmMsgAudio::SetResent: set with |= 0x08, clear with &= 0xf7. */
  function WithResent(h: HeaderStruct, v: bool): (r: HeaderStruct)
    ensures Resent(r) == v
    ensures r.audioFlags & 0xF7 == h.audioFlags & 0xF7
    ensures r == h.(audioFlags := r.audioFlags)
  {
    if v then h.(audioFlags := h.audioFlags | 0x08) else h.(audioFlags := h.audioFlags & 0xF7)
  }

  /** SetResent twice with the same value is the same as once. */
  lemma WithResentIdempotent(h: HeaderStruct, v: bool)
    ensures WithResent(WithResent(h, v), v) == WithResent(h, v)
  {
  }
}
