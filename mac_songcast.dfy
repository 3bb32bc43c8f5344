// The sender inside the ohSongcast Mac kernel driver (Songcast.cpp of the
// Mac driver). It owns a history of 100 preallocated audio messages. Each
// Send takes the oldest message, rewrites its header and audio, hands it to
// the socket, marks it resent and puts it back as the newest, so the
// history always holds the most recently sent frames for Resend.
//
// The message memory is a packed SongcastAudioHeader (the 8-byte common
// header, the 50-byte audio header and a 3-byte codec name, all in network
// order) followed by the audio buffer. The model keeps the header's fields
// in host order and gives the memory image as a function of them.
module MacSongcast {
  import opened Octets
  import opened Fifo
  import opened OhmWire
  import opened ResendRequest

  const HistoryCount: nat := 100

  /** sizeof(SongcastAudioHeader): 8 + 50 + 3 bytes, packed. */
  const StructBytes: nat := 61

  /** The codec name the constructor writes: "PCM". */
  const Codec: seq<Byte> := [0x50, 0x43, 0x4d]

  /** SongcastFormat: the constructor's parameter types bound the fields. */
  datatype Format = Format(sampleRate: U32, bitDepth: Byte, channels: Byte, sampleCount: U16)

  /** The one entry of SupportedFormats. */
  const Supported: Format := Format(44100, 24, 2, 220)

  /** SongcastFormat::Bytes: the audio bytes of one packet. The 32-bit
      product cannot wrap, as its factors are 16, 8 and 8 bits wide. */
  function FormatBytes(f: Format): (n: U32)
    ensures 8 * n <= f.sampleCount as int * f.channels as int * f.bitDepth as int < 8 * n + 8
  {
    MulBelow(f.sampleCount as int, f.channels as int, 0x1_0000, 0x100);
    MulBelow(f.sampleCount as int * f.channels as int, f.bitDepth as int, 0x100_0000, 0x100);
    (f.sampleCount as int * f.channels as int * f.bitDepth as int) / 8
  }

  /** A product of factors below their bounds is below the product of
      the bounds. */
  lemma MulBelow(x: nat, y: nat, xLimit: nat, yLimit: nat)
    requires x < xLimit && y < yLimit
    ensures x * y < xLimit * yLimit
  {
    assert x * y <= x * yLimit;
  }

  /** SongcastFormat::TimeNs: the packet's duration in whole nanoseconds. */
  function TimeNs(f: Format): (t: U64)
    requires f.sampleRate > 0
    ensures t * f.sampleRate <= 1_000_000_000 * f.sampleCount as int < (t + 1) * f.sampleRate
  {
    (1_000_000_000 * f.sampleCount as int) / f.sampleRate
  }

  /** The supported format sends 1320 audio bytes, 5 ms of audio, per packet. */
  lemma SupportedFormatSizes()
    ensures FormatBytes(Supported) == 1320 && FormatBytes(Supported) == 220 * 2 * 3
    ensures TimeNs(Supported) == 4988662
  {
  }

  // ---------------------------------------------------------------------
  // Header fields

  /** The constructor's header: lossless with timestamps (flags 6), frame
      and timestamps 0, latency 100 ms of the 256·rate media clock computed
      in 32 bits, and the format's fields. */
  function InitialHeader(f: Format): AudioHeader
  {
    AudioHeader(6, f.sampleCount, 0, 0, Trunc32(Trunc32(f.sampleRate * 256 * 100) / 1000), 0,
      0, 0, f.sampleRate, Trunc32(f.sampleRate * f.channels as int * f.bitDepth as int),
      0, f.bitDepth, f.channels, Codec)
  }

  /** SetHeader's timestamp: nanoseconds scaled to the 256·rate media clock
      in 64-bit arithmetic, then cut to the 32-bit header field. */
  function Timestamp(ns: U64, rate: U32): U32
  {
    Trunc32(Trunc64(ns * rate * 256) / 1_000_000_000)
  }

  /** SetHeader's latency, in the same clock and arithmetic. */
  function Latency(ms: U64, rate: U32): U32
  {
    Trunc32(Trunc64(ms * rate * 256) / 1000)
  }

  /** While the 64-bit product does not wrap, the timestamp is the media
      clock reading for ns nanoseconds, reduced to 32 bits. */
  lemma TimestampIsMediaClock(ns: U64, rate: U32)
    requires ns * rate * 256 < 0x1_0000_0000_0000_0000
    ensures Timestamp(ns, rate) == (ns * rate * 256 / 1_000_000_000) % 0x1_0000_0000
  {
  }

  /** The flags byte SetHeader writes: 7 with halt, 6 without. */
  function HeaderFlags(halt: bool): Byte
  {
    if halt then 7 else 6
  }

  /** SetHeader's header: h with the format, clock and frame fields of
      one packet; start sample, total samples, volume and codec are kept. */
  function HeaderFor(h: AudioHeader, f: Format, ns: U64, ms: U64, halt: bool, frame: U32): AudioHeader
  {
    h.(flags := HeaderFlags(halt), samples := f.sampleCount, frame := frame,
       networkTimestamp := Timestamp(ns, f.sampleRate), mediaTimestamp := Timestamp(ns, f.sampleRate),
       mediaLatency := Latency(ms, f.sampleRate), sampleRate := f.sampleRate,
       bitRate := Trunc32(f.sampleRate * f.channels as int * f.bitDepth as int),
       bitDepth := f.bitDepth, channels := f.channels)
  }

  /** A packet from SetHeader is lossless and timestamped, halts exactly
      when asked to, is not yet marked resent, carries the frame number,
      and has equal network and media timestamps. SetResent then adds the
      resent bit and keeps the others. */
  lemma {:induction false} HeaderForMeaning(h: AudioHeader, f: Format, ns: U64, ms: U64, halt: bool, frame: U32)
    ensures var r := HeaderFor(h, f, ns, ms, halt, frame);
      && HasFlag(r.flags, FlagHalt) == halt
      && HasFlag(r.flags, FlagLossless) && HasFlag(r.flags, FlagTimestamped)
      && !HasFlag(r.flags, FlagResent)
      && r.frame == frame && r.networkTimestamp == r.mediaTimestamp
      && r.codecName == h.codecName && r.sampleStart == h.sampleStart
    ensures var r := WithResentFlag(HeaderFlags(halt));
      && HasFlag(r, FlagResent) && HasFlag(r, FlagHalt) == halt
      && HasFlag(r, FlagLossless) && HasFlag(r, FlagTimestamped)
  {
    var r := HeaderFor(h, f, ns, ms, halt, frame);
    if halt {
      assert r.flags == 7;
    } else {
      assert r.flags == 6;
    }
  }

  /** The bytes handed to the socket: the packed header, then the first
      audioBytes bytes of the audio buffer. */
  function Wire(h: AudioHeader, audioBytes: nat, audio: seq<Byte>): (s: seq<Byte>)
    requires |h.codecName| == 3 && audioBytes <= |audio|
    ensures |s| == StructBytes + audioBytes
  {
    EncodeHeader(Header(1, MsgAudio, Trunc16(StructBytes + audioBytes)))
    + EncodeAudioHeader(h) + audio[..audioBytes]
  }

  /** The image decodes as an Ohm audio message with exactly these header
      fields, followed by the audio. */
  lemma {:induction false} WireDecodes(h: AudioHeader, audioBytes: nat, audio: seq<Byte>)
    requires |h.codecName| == 3 && audioBytes <= |audio|
    ensures DecodeHeader(Wire(h, audioBytes, audio)) == Some(Header(1, MsgAudio, Trunc16(StructBytes + audioBytes)))
    ensures DecodeAudioHeader(Wire(h, audioBytes, audio)[HeaderBytes..]) == Some(h)
    ensures Wire(h, audioBytes, audio)[StructBytes..] == audio[..audioBytes]
  {
    var e := EncodeHeader(Header(1, MsgAudio, Trunc16(StructBytes + audioBytes)));
    var a := EncodeAudioHeader(h);
    var s := Wire(h, audioBytes, audio);
    assert s == e + (a + audio[..audioBytes]);
    HeaderRoundTrip(Header(1, MsgAudio, Trunc16(StructBytes + audioBytes)), a + audio[..audioBytes]);
    assert s[HeaderBytes..] == a + audio[..audioBytes];
    AudioHeaderRoundTrip(h, audio[..audioBytes]);
  }

  /** The frame field of the image, read back as Frame() does: the
      big-endian word at offset 12. */
  lemma {:induction false} WireFrame(h: AudioHeader, audioBytes: nat, audio: seq<Byte>)
    requires |h.codecName| == 3 && audioBytes <= |audio|
    ensures DecodeBe32(Wire(h, audioBytes, audio), 12) == h.frame
  {
    var s := Wire(h, audioBytes, audio);
    WireDecodes(h, audioBytes, audio);
    assert DecodeBe32(s[HeaderBytes..], 4) == h.frame;
    assert s[12..16] == s[HeaderBytes..][4..8];
    DecodeBe32Local(s, s[HeaderBytes..], 12, 4);
  }

  // ---------------------------------------------------------------------
  // Audio

  /** SetData's audio buffer of max bytes: a copy on an exact fit, the
      data then zeros when shorter, and all zeros when longer. */
  function Payload(data: seq<Byte>, max: nat): (r: seq<Byte>)
    ensures |r| == max
    ensures |data| <= max ==> r[..|data|] == data
    ensures forall i :: (if |data| <= max then |data| else 0) <= i < max ==> r[i] == 0
  {
    if |data| == max then data
    else if |data| < max then data + Zeros(max - |data|)
    else Zeros(max)
  }

  // ---------------------------------------------------------------------
  // SongcastAudioMessage

  class AudioMessage {
    const maxAudioBytes: U32
    var audioBytes: U32
    /** The header fields, host order. */
    var header: AudioHeader
    /** The audio area of the message buffer. */
    var audio: seq<Byte>

    ghost predicate Valid()
      reads this
    {
      |audio| == maxAudioBytes && audioBytes <= maxAudioBytes && header.codecName == Codec
    }

    /** Bytes(): the packed header and the current audio size. */
    function Bytes(): (n: nat)
      reads this
      ensures n == StructBytes + audioBytes
    {
      StructBytes + audioBytes
    }

    /** The message memory as the socket sends it. */
    function Image(): (s: seq<Byte>)
      reads this
      requires Valid()
      ensures |s| == Bytes()
    {
      Wire(header, audioBytes, audio)
    }

    /** Frame(): the frame field swapped back to host order. */
    function Frame(): (f: U32)
      reads this
      requires Valid()
      ensures f == header.frame
    {
      WireFrame(header, audioBytes, audio);
      DecodeBe32(Image(), 12)
    }

    /** The buffer holds max audio bytes; the header starts from the
        format (a failed allocation is the caller's concern). */
    constructor (max: U32, f: Format)
      requires FormatBytes(f) <= max
      ensures Valid() && maxAudioBytes == max && audioBytes == FormatBytes(f)
      ensures header == InitialHeader(f) && audio == Zeros(max)
    {
      maxAudioBytes := max;
      audioBytes := FormatBytes(f);
      header := InitialHeader(f);
      audio := Zeros(max);
    }

    method SetHeader(f: Format, ns: U64, ms: U64, halt: bool, frame: U32)
      requires Valid() && FormatBytes(f) <= maxAudioBytes
      modifies this
      ensures Valid() && audioBytes == FormatBytes(f) && audio == old(audio)
      ensures header == HeaderFor(old(header), f, ns, ms, halt, frame)
    {
      audioBytes := FormatBytes(f);
      header := HeaderFor(header, f, ns, ms, halt, frame);
    }

    method SetResent()
      requires Valid()
      modifies this`header
      ensures Valid() && header == old(header).(flags := WithResentFlag(old(header).flags))
    {
      header := header.(flags := WithResentFlag(header.flags));
    }

    method SetData(data: seq<Byte>)
      requires Valid()
      modifies this`audio
      ensures Valid() && audio == Payload(data, maxAudioBytes)
    {
      audio := Payload(data, maxAudioBytes);
    }
  }

  // ---------------------------------------------------------------------
  // Songcast

  datatype State = Inactive | Active | PendingInactive

  /** SetActive: a nonzero value activates, zero leaves one send pending. */
  function StateFor(active: U64): State
  {
    if active != 0 then Active else PendingInactive
  }

  /** The state after a Send that sent a message. */
  function NextState(s: State): State
  {
    if s == PendingInactive then Inactive else s
  }

  /** The halt flags of the messages that a run of Sends, starting in s
      with a non-empty history and asked for the given halt flags, hands to
      the socket. */
  function SentHalts(s: State, halts: seq<bool>): seq<bool>
    decreases |halts|
  {
    if |halts| == 0 || s == Inactive then []
    else [halts[0] || s == PendingInactive] + SentHalts(NextState(s), halts[1..])
  }

  /** After SetActive(0) exactly one more message goes out, and it halts,
      however many Sends follow. */
  lemma OneHaltAfterDeactivate(halts: seq<bool>)
    requires |halts| > 0
    ensures SentHalts(StateFor(0), halts) == [true]
  {
  }

  /** While active, every Send goes out with the halt flag it was given. */
  lemma {:induction false} ActiveSendsAll(halts: seq<bool>)
    ensures SentHalts(Active, halts) == halts
    decreases |halts|
  {
    if |halts| > 0 {
      ActiveSendsAll(halts[1..]);
      assert halts == [halts[0]] + halts[1..];
    }
  }

  /** Some frame among the first count entries of the request is f. */
  ghost predicate Listed(request: seq<Byte>, count: nat, f: U32)
    requires 4 * count <= |request|
  {
    exists j :: 0 <= j < count && RequestFrame(request, j) == f
  }

  /** Resend's inner loop: whether f is among the first count frames of
      the request. */
  method FindFrame(request: seq<Byte>, count: nat, f: U32) returns (listed: bool)
    requires 4 * count <= |request|
    ensures listed <==> Listed(request, count, f)
  {
    var j := 0;
    while j < count
      invariant 0 <= j <= count
      invariant forall k :: 0 <= k < j ==> RequestFrame(request, k) != f
    {
      if RequestFrame(request, j) == f {
        return true;
      }
      j := j + 1;
    }
    return false;
  }

  /** A history entry as Resend sees it: its frame and its image. */
  datatype Entry = Entry(frame: U32, image: seq<Byte>)

  /** The images Resend sends for a history, oldest first. */
  ghost function Matching(es: seq<Entry>, request: seq<Byte>, count: nat): seq<seq<Byte>>
    requires 4 * count <= |request|
    decreases |es|
  {
    if |es| == 0 then []
    else
      Matching(es[..|es| - 1], request, count)
      + (if Listed(request, count, es[|es| - 1].frame) then [es[|es| - 1].image] else [])
  }

  /** Resend sends the image of every history entry whose frame was
      requested, and nothing else. */
  lemma {:induction false} MatchingIsRequested(es: seq<Entry>, request: seq<Byte>, count: nat)
    requires 4 * count <= |request|
    ensures |Matching(es, request, count)| <= |es|
    ensures forall k :: 0 <= k < |es| && Listed(request, count, es[k].frame)
              ==> es[k].image in Matching(es, request, count)
    ensures forall x :: x in Matching(es, request, count) ==>
              exists k :: 0 <= k < |es| && es[k].image == x && Listed(request, count, es[k].frame)
    decreases |es|
  {
    if |es| > 0 {
      var init := es[..|es| - 1];
      MatchingIsRequested(init, request, count);
      forall x | x in Matching(es, request, count)
        ensures exists k :: 0 <= k < |es| && es[k].image == x && Listed(request, count, es[k].frame)
      {
        if x in Matching(init, request, count) {
          var k :| 0 <= k < |init| && init[k].image == x && Listed(request, count, init[k].frame);
          assert es[k] == init[k];
        } else {
          assert es[|es| - 1].image == x;
        }
      }
      forall k | 0 <= k < |es| && Listed(request, count, es[k].frame)
        ensures es[k].image in Matching(es, request, count)
      {
        if k < |es| - 1 {
          assert es[k] == init[k];
        }
      }
    }
  }

  /** A request with no frames matches nothing. */
  lemma {:induction false} MatchingNone(es: seq<Entry>, request: seq<Byte>)
    ensures Matching(es, request, 0) == []
    decreases |es|
  {
    if |es| > 0 {
      MatchingNone(es[..|es| - 1], request);
    }
  }

  /** The number of true values in s. */
  function CountTrue(s: seq<bool>): (n: nat)
    ensures n <= |s|
    decreases |s|
  {
    if |s| == 0 then 0 else CountTrue(s[..|s| - 1]) + (if s[|s| - 1] then 1 else 0)
  }

  /** Every message of h is allocated and valid. */
  ghost predicate AllValid(h: seq<AudioMessage?>)
    reads h
  {
    forall i :: 0 <= i < |h| ==> h[i] != null && h[i].Valid()
  }

  /** Every message of h is valid and has room for max bytes of audio. */
  ghost predicate Sized(h: seq<AudioMessage?>, max: nat)
    reads h
  {
    AllValid(h) && forall i :: 0 <= i < |h| ==> h[i].maxAudioBytes == max
  }

  /** A rotation of a history holds the same messages. */
  lemma SizedRotate(h: seq<AudioMessage?>, max: nat, i: nat)
    requires Sized(h, max) && i <= |h|
    ensures Sized(h[i..] + h[..i], max)
  {
    var r := h[i..] + h[..i];
    forall k | 0 <= k < |r|
      ensures r[k] == h[if k < |h| - i then i + k else k - (|h| - i)]
    {
    }
  }

  /** A step that touches none of h's messages keeps them valid and
      keeps their entries. */
  twostate lemma Untouched(h: seq<AudioMessage?>)
    requires old(AllValid(h)) && unchanged(h)
    ensures AllValid(h) && Entries(h) == old(Entries(h))
  {
  }

  /** A step that leaves m alone keeps it valid and keeps its frame and
      image. */
  twostate lemma Kept(m: AudioMessage)
    requires old(m.Valid()) && unchanged(m)
    ensures m.Valid() && m.Frame() == old(m.Frame()) && m.Image() == old(m.Image())
  {
  }

  /** A step that leaves the first message of h valid and touches no
      other message keeps every message valid. */
  twostate lemma HeadRewritten(h: seq<AudioMessage?>)
    requires old(AllValid(h)) && |h| > 0 && h[0] != null && h[0].Valid()
    requires forall k :: 0 <= k < |h| && h[k] != h[0] ==> unchanged(h[k])
    ensures AllValid(h)
  {
  }

  /** The history as entries, oldest first. */
  ghost function Entries(h: seq<AudioMessage?>): (es: seq<Entry>)
    requires AllValid(h)
    reads h
    ensures |es| == |h|
    decreases |h|
  {
    if |h| == 0 then []
    else
      assert AllValid(h[..|h| - 1]);
      Entries(h[..|h| - 1]) + [Entry(h[|h| - 1].Frame(), h[|h| - 1].Image())]
  }

  /** Send's work on the message it took from the history: the next
      frame's header and audio are written, the image is taken for the
      socket, and the resent bit is set. */
  method Rewrite(msg: AudioMessage, f: Format, ns: U64, ms: U64, halt: bool, frame: U32, data: seq<Byte>)
    returns (image: seq<Byte>)
    requires msg.Valid() && FormatBytes(f) <= msg.maxAudioBytes
    modifies msg
    ensures msg.Valid()
    ensures var h := HeaderFor(old(msg.header), f, ns, ms, halt, frame);
      && image == Wire(h, FormatBytes(f), Payload(data, msg.maxAudioBytes))
      && msg.header == h.(flags := WithResentFlag(h.flags))
      && msg.audioBytes == FormatBytes(f) && msg.audio == Payload(data, msg.maxAudioBytes)
  {
    msg.SetHeader(f, ns, ms, halt, frame);
    msg.SetData(data);
    image := msg.Image();
    msg.SetResent();
  }

  /** Every message of h is as the constructor allocates it. */
  ghost predicate Initial(h: seq<AudioMessage?>)
    reads h
  {
    Sized(h, FormatBytes(Supported)) && forall k :: 0 <= k < |h| ==> h[k].header == InitialHeader(Supported)
  }

  /** One turn of the constructor's loop: a message is allocated and
      written into the history when allocOk[i] says the allocation
      succeeded. */
  method Fill(fifo: FifoLite<AudioMessage?>, allocOk: seq<bool>, i: nat)
    requires i < |allocOk| <= fifo.slots
    requires fifo.Valid() && |fifo.contents| == CountTrue(allocOk[..i]) && Initial(fifo.contents)
    modifies fifo, fifo.buf
    ensures fifo.Valid() && |fifo.contents| == CountTrue(allocOk[..i + 1]) && Initial(fifo.contents)
  {
    assert allocOk[..i + 1][..i] == allocOk[..i];
    if allocOk[i] {
      var msg := new AudioMessage(FormatBytes(Supported), Supported);
      fifo.Write(msg);
    }
  }

  /** The constructor's loop: a message per slot, skipping those whose
      allocation failed. */
  method NewHistory(allocOk: seq<bool>) returns (fifo: FifoLite<AudioMessage?>)
    requires |allocOk| == HistoryCount
    ensures fresh(fifo) && fresh(fifo.buf) && fifo.Valid() && fifo.slots == HistoryCount
    ensures |fifo.contents| == CountTrue(allocOk) && Initial(fifo.contents)
  {
    fifo := new FifoLite<AudioMessage?>(HistoryCount);
    var i := 0;
    while i < |allocOk|
      invariant 0 <= i <= |allocOk| && fifo.Valid() && fifo.slots == HistoryCount
      invariant fresh(fifo) && fresh(fifo.buf)
      invariant |fifo.contents| == CountTrue(allocOk[..i]) && Initial(fifo.contents)
    {
      Fill(fifo, allocOk, i);
      i := i + 1;
    }
    RotateEnds(allocOk);
  }

  class Songcast {
    var state: State
    var latencyMs: U64
    var frame: U32
    /** The largest audio size of the supported formats. */
    const maxBytes: U32
    const history: FifoLite<AudioMessage?>

    ghost predicate Valid()
      reads history, history.buf, history.contents
    {
      history.Valid() && history.slots == HistoryCount
      && Sized(history.contents, maxBytes)
    }

    /** The history is filled with a message per slot; allocOk[i] says
        whether the i-th allocation succeeded, and a failed one is skipped. */
    constructor (allocOk: seq<bool>)
      requires |allocOk| == HistoryCount
      ensures Valid() && fresh(history) && fresh(history.buf)
      ensures state == Inactive && latencyMs == 100 && frame == 0
      ensures maxBytes == FormatBytes(Supported)
      ensures |history.contents| == CountTrue(allocOk)
      ensures forall i :: 0 <= i < |history.contents| ==> history.contents[i].header == InitialHeader(Supported)
    {
      state := Inactive;
      latencyMs := 100;
      frame := 0;
      maxBytes := FormatBytes(Supported);
      var fifo := NewHistory(allocOk);
      history := fifo;
    }

    method SetActive(active: U64)
      modifies this`state
      ensures state == StateFor(active)
    {
      state := if active != 0 then Active else PendingInactive;
    }

    method SetLatencyMs(ms: U64)
      modifies this`latencyMs
      ensures latencyMs == ms
    {
      latencyMs := ms;
    }

    /** Send: nothing while Inactive or with an empty history; otherwise
        the oldest message becomes the next frame, is sent, marked resent
        and written back as the newest. A pending deactivation forces the
        halt flag onto this one message and then takes effect. */
    method Send(f: Format, ns: U64, halt: bool, data: seq<Byte>) returns (sent: Option<seq<Byte>>)
      requires Valid() && FormatBytes(f) <= maxBytes
      modifies this`state, this`frame, history, history.buf, history.contents
      ensures Valid() && |history.contents| == |old(history.contents)|
      ensures sent.Some? <==> old(state) != Inactive && |old(history.contents)| > 0
      ensures sent.None? ==>
                state == old(state) && frame == old(frame)
                && history.contents == old(history.contents)
                && forall i :: 0 <= i < |history.contents| ==> unchanged(history.contents[i])
      ensures sent.Some? ==>
                var m := old(history.contents[0]);
                var h := HeaderFor(old(m.header), f, ns, latencyMs, halt || old(state) == PendingInactive, frame);
                && state == NextState(old(state)) && frame == Inc32(old(frame))
                && history.contents == old(history.contents[1..]) + [m]
                && sent.value == Wire(h, FormatBytes(f), Payload(data, maxBytes))
                && m.header == h.(flags := WithResentFlag(h.flags))
                && m.audioBytes == FormatBytes(f) && m.audio == Payload(data, maxBytes)
    {
      var used := history.SlotsUsed();
      if state == Inactive || used == 0 {
        return None;
      }
      var image := SendNext(f, ns, halt, data);
      sent := Some(image);
    }

    /** Send's path when a message goes out. */
    method SendNext(f: Format, ns: U64, halt: bool, data: seq<Byte>) returns (image: seq<Byte>)
      requires Valid() && FormatBytes(f) <= maxBytes
      requires state != Inactive && |history.contents| > 0
      modifies this`state, this`frame, history, history.buf, history.contents
      ensures Valid()
      ensures var m := old(history.contents[0]);
        var h := HeaderFor(old(m.header), f, ns, latencyMs, halt || old(state) == PendingInactive, frame);
        && state == NextState(old(state)) && frame == Inc32(old(frame))
        && history.contents == old(history.contents[1..]) + [m]
        && image == Wire(h, FormatBytes(f), Payload(data, maxBytes))
        && m.header == h.(flags := WithResentFlag(h.flags))
        && m.audioBytes == FormatBytes(f) && m.audio == Payload(data, maxBytes)
    {
      ghost var c := history.contents;
      var msg := history.Read();
      var stopping := state == PendingInactive;
      frame := Inc32(frame);
      image := Rewrite(msg, f, ns, latencyMs, halt || stopping, frame, data);
      HeadRewritten(c);
      PutBack(msg, c);
      if stopping {
        state := Inactive;
      }
    }

    /** The second half of Send's step on the fifo: the message read from
        the head of c goes back in as the newest. */
    method PutBack(msg: AudioMessage?, ghost c: seq<AudioMessage?>)
      requires history.Valid() && history.slots == HistoryCount && Sized(c, maxBytes)
      requires 0 < |c| <= history.slots && msg == c[0] && history.contents == c[1..]
      modifies history, history.buf
      ensures Valid() && history.contents == c[1..] + [msg]
    {
      SizedRotate(c, maxBytes, 1);
      RotateEnds(c);
      history.Write(msg);
    }

    /** Resend's step on the fifo: the oldest message is read and written
        straight back as the newest. */
    method Recycle() returns (msg: AudioMessage?)
      requires Valid() && |history.contents| > 0
      modifies history, history.buf
      ensures Valid()
      ensures msg == old(history.contents[0]) && history.contents == old(history.contents[1..]) + [msg]
    {
      ghost var c := history.contents;
      msg := history.Read();
      history.Write(msg);
      Untouched(c);
      SizedRotate(c, maxBytes, 1);
      RotateEnds(c);
    }

    /** The history is h0 rotated by i. */
    ghost predicate RotatedBy(h0: seq<AudioMessage?>, i: nat)
      reads history, history.buf, history.contents
    {
      Valid() && i <= |h0| && history.contents == h0[i..] + h0[..i]
    }

    /** One turn of Resend's history loop: the oldest entry is read and
        written straight back as the newest, and is sent if its frame is
        listed. */
    method ResendEntry(count: nat, request: seq<Byte>, ghost h0: seq<AudioMessage?>, ghost es: seq<Entry>,
                       ghost i: nat, sent0: seq<seq<Byte>>)
      returns (sent: seq<seq<Byte>>)
      requires 4 * count <= |request| && i < |h0| == |es| && RotatedBy(h0, i)
      requires h0[i] != null && h0[i].Valid() && es[i] == Entry(h0[i].Frame(), h0[i].Image())
      requires sent0 == Matching(es[..i], request, count)
      modifies history, history.buf
      ensures RotatedBy(h0, i + 1)
      ensures sent == Matching(es[..i + 1], request, count)
    {
      RotateStep(h0, i);
      var msg := Recycle();
      var listed := FindFrame(request, count, msg.Frame());
      sent := sent0;
      if listed {
        sent := sent + [msg.Image()];
      }
      MatchingStep(es, i, request, count);
    }

    /** Resend: with a count of 0 nothing happens; otherwise every history
        entry is read and written back once, which keeps the history as it
        was, and each entry whose frame is among the request's first count
        big-endian frame numbers is sent again. */
    method Resend(count: nat, request: seq<Byte>) returns (sent: seq<seq<Byte>>)
      requires Valid() && 4 * count <= |request|
      modifies history, history.buf
      ensures Valid() && history.contents == old(history.contents)
      ensures sent == Matching(Entries(history.contents), request, count)
    {
      ghost var h0 := history.contents;
      ghost var es := Entries(h0);
      if count == 0 {
        MatchingNone(es, request);
        return [];
      }
      forall k | 0 <= k < |h0|
        ensures es[k] == Entry(h0[k].Frame(), h0[k].Image())
      {
        EntryAt(h0, k);
      }
      RotateEnds(h0);
      sent := ResendAll(count, request, h0, es);
      RotateEnds(h0);
      Untouched(h0);
    }

    /** Resend's history loop, once round the whole history. */
    method ResendAll(count: nat, request: seq<Byte>, ghost h0: seq<AudioMessage?>, ghost es: seq<Entry>)
      returns (sent: seq<seq<Byte>>)
      requires 4 * count <= |request| && |h0| == |es| && RotatedBy(h0, 0) && AllValid(h0)
      requires forall k :: 0 <= k < |h0| ==> es[k] == Entry(h0[k].Frame(), h0[k].Image())
      modifies history, history.buf
      ensures RotatedBy(h0, |h0|) && unchanged(h0)
      ensures sent == Matching(es, request, count)
    {
      sent := [];
      var n := history.SlotsUsed();
      var i := 0;
      while i < n
        invariant i <= n == |h0| && RotatedBy(h0, i)
        invariant sent == Matching(es[..i], request, count)
      {
        Kept(h0[i]);
        sent := ResendEntry(count, request, h0, es, i, sent);
        i := i + 1;
      }
      RotateEnds(es);
    }
  }

  /** The k-th entry of a history is its k-th message's frame and image. */
  lemma {:induction false} EntryAt(h: seq<AudioMessage?>, k: nat)
    requires AllValid(h) && k < |h|
    ensures Entries(h)[k] == Entry(h[k].Frame(), h[k].Image())
    decreases |h|
  {
    if k < |h| - 1 {
      assert AllValid(h[..|h| - 1]);
      EntryAt(h[..|h| - 1], k);
    }
  }

  /** Rotating h by none or all of its length gives h back, and its
      one-entry prefix is its first entry. */
  lemma RotateEnds<T>(h: seq<T>)
    ensures h[0..] + h[..0] == h && h[|h|..] + h[..|h|] == h && h[..|h|] == h
    ensures |h| > 0 ==> h[..1] == [h[0]]
  {
  }

  /** Moving the oldest entry of a rotated history to the back rotates it
      one place further. */
  lemma RotateStep<T>(h: seq<T>, i: nat)
    requires i < |h|
    ensures (h[i..] + h[..i])[0] == h[i]
    ensures (h[i..] + h[..i])[1..] + [h[i]] == h[i + 1..] + h[..i + 1]
  {
    assert (h[i..] + h[..i])[1..] == h[i + 1..] + h[..i];
  }

  /** Matching over one more entry. */
  lemma MatchingStep(es: seq<Entry>, i: nat, request: seq<Byte>, count: nat)
    requires i < |es| && 4 * count <= |request|
    ensures Matching(es[..i + 1], request, count) == Matching(es[..i], request, count)
      + (if Listed(request, count, es[i].frame) then [es[i].image] else [])
  {
    assert es[..i + 1][..i] == es[..i];
  }
}
